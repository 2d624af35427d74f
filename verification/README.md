# Translation queue and navigation tree of the docs website, in Dafny

This project models three parts of the documentation website's build and
publishing tooling:

- **The translation vendor client.** This is `makeRequest`, `getAccessToken` and `vendorRequest`.
  - A request is re-sent while the vendor answers HTTP 429, up to a fixed number of retries.
  - The reply's `{response: {code, data}}` envelope is then decoded. A `SUCCESS` code yields
    `data`; any other code is an error.
- **The translation-queue submission script.** It runs in these stages:
  1. Group the pending translations by locale.
  2. Load the pages that still exist.
  3. Create one vendor job per locale.
  4. Create one batch per job and record it.
  5. Upload every page to its locale's batch, and send each accepted page's public URL as
     visual context.
  6. Exit with 0 only when every upload was accepted.
- **The navigation-tree source plugin.** It resolves the `nav` query. The result is either:
  - the full navigation, with the root nav's category items expanded and the generated
    release-notes nav spliced in; or
  - for agile-handbook and style-guide slugs, the sub-nav whose tree contains the slug.

  The model also covers the `Nav`/`NavItem` field resolvers, translated titles and
  `onCreatePage`.

Every operation is a pure function over immutable data. The pieces that touch the
outside world are parameters:

- the database rows, the filesystem and MDX rendering;
- the vendor's replies to each attempt;
- the clock;
- `createNodeId`;
- base64;
- `localeCompare`;
- the public docs site that context pages are fetched from.

Some JavaScript behaviours matter to the results, and the model keeps them:

- `undefined` is `None`, and truthiness is explicit. An empty `url` falls through to `path`.
- A template literal prints `undefined` as the text `undefined`.
- `String.prototype.replace` with a string pattern replaces only the first occurrence.
- `Array.prototype.find` returns the element itself.
- Objects and `Map`s keep keys in insertion order.

Modules:

| module | file | models |
|---|---|---|
| `Base` | base.dfy | `Option`, `Result`, JS truthiness and string rendering of `undefined` |
| `Strings` | strings.dfy | `startsWith`, `endsWith`, `indexOf`, `includes`, first-occurrence `replace` |
| `Sequences` | sequences.dfy | `filter`, `find`/`findIndex`, de-duplication through `Set`, stable `sort` |
| `Grouping` | grouping.dfy | order-preserving grouping through `reduce` into a `Map` or an object |
| `VendorRequest` | vendor_request.dfy | `scripts/actions/utils/vendor-request.js` |
| `TranslationQueue` | translation_queue.dfy | `scripts/actions/send-and-update-translation-queue.js` |
| `SourceNav` | source_nav.dfy | `plugins/gatsby-source-nav/gatsby-node.js` |

The retry policy `.retry().attempts(3)` counts retries after the first call. A vendor that
keeps answering 429 therefore receives four requests, not three. `VendorRequest.Execute`
follows the code.

## Model

| member | source | states |
|---|---|---|
| `VendorRequest.Execute` | scripts/actions/utils/vendor-request.js:6-11 | The policy makes between 1 and 4 calls (3 retries). Every call before the last was answered 429. The outcome passed on is the last call's. It is a 429 only when the retries ran out. |
| `VendorRequest.RunPolicy` | scripts/actions/utils/vendor-request.js:6-11 | The retry loop, one `fetch` per iteration, makes at most `maxRetries + 1` calls. It ends with exactly the outcome and call count of the policy. |
| `VendorRequest.NoRetryUnlessRateLimited` | scripts/actions/utils/vendor-request.js:6 | A first answer that is not a 429 is passed on after a single call. |
| `VendorRequest.ExhaustedRetriesPassLast` | scripts/actions/utils/vendor-request.js:6-11 | When every attempt is answered 429, all four calls are made and the fourth reply is passed on. |
| `VendorRequest.RetryReachesFirstAnswer` | scripts/actions/utils/vendor-request.js:6-11 | If the 429s stop before the bound, the first non-429 reply is the one passed on, after exactly that many calls. |
| `VendorRequest.Decode` | scripts/actions/utils/vendor-request.js:13-23 | The result is `data` exactly when the envelope's code is `SUCCESS`, whatever the HTTP status. Any other code is an error carrying the whole `response`. A network failure stays an error. |
| `VendorRequest.MakeRequestSucceeds` | scripts/actions/utils/vendor-request.js:5-24 | A request succeeds exactly when the reply it settles on carries `SUCCESS`. It then yields that reply's `data`. |
| `VendorRequest.VendorRequestFor` | scripts/actions/utils/vendor-request.js:66-89 | The request carries a `Bearer` token and the content type, which defaults to JSON. A body is sent exactly when the method is not GET. The body defaults to `{}` and is JSON-encoded exactly when the content type is JSON. |
| `VendorRequest.AuthRequest` | scripts/actions/utils/vendor-request.js:31-46 | The authentication request is a JSON POST of the user identifier and secret with no `Authorization` header. `GetAccessToken` sends exactly this request. |
| `VendorRequest.GetAccessToken` | scripts/actions/utils/vendor-request.js:31-51 | The token is the `accessToken` field of the data the vendor returns for `AuthRequest`, or undefined when that field is missing. A failed request or a missing `data` is an error. |
| `TranslationQueue.ListByLocaleKeys` | scripts/actions/send-and-update-translation-queue.js:263-270 | Each locale appears once, in order of first appearance. Every pending row's locale is among them. |
| `TranslationQueue.ListByLocaleGroups` | scripts/actions/send-and-update-translation-queue.js:263-270 | A locale's list holds the slugs of its pending rows in queue order. The lists hold as many slugs as there are rows, so every row lands in exactly one list. |
| `TranslationQueue.LoadPages` | scripts/actions/send-and-update-translation-queue.js:43-60 | A locale's pages are exactly its slugs that exist, in order. Each page's html is that file rendered. |
| `TranslationQueue.GetContent` | scripts/actions/send-and-update-translation-queue.js:38-64 | The content has the same locales in the same order. Each locale holds exactly its existing slugs. Every page exists and carries its rendered html. |
| `TranslationQueue.JobRequests` | scripts/actions/send-and-update-translation-queue.js:166-177 | There is one authorised POST to the jobs endpoint per locale, in locale order. Each job targets only that locale's vendor id. |
| `TranslationQueue.JobUids` | scripts/actions/send-and-update-translation-queue.js:180 | There is one job uid per job reply, read from `translationJobUid` (undefined when the field is absent). |
| `TranslationQueue.BatchRequests` | scripts/actions/send-and-update-translation-queue.js:193-207 | Batch `i` is an unauthorised batch for job `i` that lists the files of locale `i`'s pages in order. |
| `TranslationQueue.JobRecords` | scripts/actions/send-and-update-translation-queue.js:210-213 | Each batch reply gets one `PENDING` job record carrying its `job_uid` and `batch_uid`. |
| `TranslationQueue.BatchUidsAsWrittenUndefined` | scripts/actions/send-and-update-translation-queue.js:217 | The code reads `resp.batchUid`, but a batch reply carries only `job_uid` and `batch_uid`. Every batch uid it passes to the uploads is therefore undefined. |
| `TranslationQueue.BatchUids` | scripts/actions/send-and-update-translation-queue.js:212-217 | The corrected read takes each batch uid from `batch_uid`, the value `addJob` records. It is defined exactly when the reply has that field. |
| `TranslationQueue.UploadPlan` | scripts/actions/send-and-update-translation-queue.js:220-224 | There is one upload per page summed over the locales. Each upload is tagged with one of the locales and one of the batch uids. |
| `TranslationQueue.UploadPlanIndex` | scripts/actions/send-and-update-translation-queue.js:220-224 | Page `j` of locale `i` is uploaded at position `TotalPages(pages[..i]) + j`, with locale `i`'s key and batch uid. |
| `TranslationQueue.UploadEndpointPrefix` | scripts/actions/send-and-update-translation-queue.js:83-86 | The upload path opens with the project's `/batches/`. |
| `TranslationQueue.UploadEndpointSuffix` | scripts/actions/send-and-update-translation-queue.js:83-86 | The upload path ends in `/batches/`, the batch uid and `/file`. |
| `TranslationQueue.UndefinedBatchEndpoint` | scripts/actions/send-and-update-translation-queue.js:83-86 | An undefined batch uid gives an upload path ending in `/batches/undefined/file`. |
| `TranslationQueue.UploadEndpointDeterminesBatch` | scripts/actions/send-and-update-translation-queue.js:83-86 | Within one project, two uploads with the same path have the same batch uid as rendered. |
| `TranslationQueue.AsWrittenUploadsPostToUndefined` | scripts/actions/send-and-update-translation-queue.js:217-224 | As written, every planned upload posts to `/batches/undefined/file`. |
| `TranslationQueue.UploadsUseCreatedBatches` | scripts/actions/send-and-update-translation-queue.js:217-224 | In the corrected run every upload goes to a batch created in that run, for one of the content's locales. |
| `TranslationQueue.LocaleFileConcatOrdered` | scripts/actions/send-and-update-translation-queue.js:73 | When no locale holds a `/` and both files start with `src/content/`, different (locale, file) pairs concatenate to different strings. |
| `TranslationQueue.UploadFileNamesDistinct` | scripts/actions/send-and-update-translation-queue.js:73-75 | Within a run, two uploads for different (locale, file) pairs write different temporary files. This needs an injective encoding, locale codes without `/` and files under `src/content/`. |
| `TranslationQueue.ContextSlugOfContentFile` | scripts/actions/send-and-update-translation-queue.js:119-120 | A file `src/content/<m>.mdx` is published at `<m>`, provided `<m>` holds no other `.mdx`. |
| `TranslationQueue.ContextUrlOfContentFile` | scripts/actions/send-and-update-translation-queue.js:119-121 | The context page of `src/content/<m>.mdx` is `<m>` on the docs site, provided `<m>` holds no other `.mdx`. |
| `TranslationQueue.SendPageContext` | scripts/actions/send-and-update-translation-queue.js:118-155 | The page fetched is the file's URL on the docs site. A context is sent exactly when that fetch settles, and it is named by that URL, filed under the file's path and carries the fetched HTML. The call settles exactly when the fetch and the upload both settle with a body. It then reports success exactly on `SUCCESS` with an ok status. |
| `TranslationQueue.UploadFile` | scripts/actions/send-and-update-translation-queue.js:72-110 | A failed temporary-file write or read-back rejects the upload, and no context is sent. Otherwise the context of the page's file is sent exactly after an `ACCEPTED` reply with an ok status. A settled upload resolves to the vendor's code with its locale and file, whatever that code is. A rejected context send rejects the upload with the context's error. |
| `TranslationQueue.ContextNeverChangesCode` | scripts/actions/send-and-update-translation-queue.js:100-109 | What the context upload reports never changes the upload's result. |
| `TranslationQueue.UploadsPartition` | scripts/actions/send-and-update-translation-queue.js:276-278 | The successful and failed uploads partition the responses, as multisets and in count. |
| `TranslationQueue.ExitCode` | scripts/actions/send-and-update-translation-queue.js:272-288 | The exit code is 0 or 1. It is 0 exactly when nothing threw and every upload was accepted. |
| `TranslationQueue.AwaitAll` | scripts/actions/send-and-update-translation-queue.js:179 | `Promise.all` over the requests resolves exactly when every request resolves, to their values in request order. Otherwise it rejects with the first rejecting request's error. |
| `TranslationQueue.ReadAll` | scripts/actions/send-and-update-translation-queue.js:180 | Reading a field of every resolved value succeeds exactly when every value has data. Otherwise it throws the missing-data error. |
| `TranslationQueue.SendAll` | scripts/actions/send-and-update-translation-queue.js:171-180 | Awaiting the requests and then reading their data succeeds exactly when every request yields data. The results are in request order. A rejecting request's error wins over a missing `data`: the first rejection is thrown, and the missing-data error is thrown exactly when every request resolved and some value has no data. |
| `TranslationQueue.UploadAll` | scripts/actions/send-and-update-translation-queue.js:223-226 | Awaiting the uploads together succeeds exactly when every upload settles. The outcomes are in upload order. |
| `TranslationQueue.StageBatches` | scripts/actions/send-and-update-translation-queue.js:164-209 | The staged content is the loaded queue, with the same locales and one batch reply per locale. A failed token throws its error. With the token granted, failing job requests throw their error. Otherwise failing batch requests, built from the created job uids and the content's pages, throw theirs. Otherwise the batch replies are those requests' data. |
| `TranslationQueue.StagedBatchFollowsJob` | scripts/actions/send-and-update-translation-queue.js:164-209 | Staged locale `i` is the queue's `i`-th locale, and its pages are that locale's slugs that exist on disk. The job created for it replied with data. Batch reply `i` answers the batch request that names that job's uid and lists that locale's files, sent with the granted token. |
| `TranslationQueue.RunAsWritten` | scripts/actions/send-and-update-translation-queue.js:272-285 | As written, the `try` block always throws. When the token, job or batch stage fails, it throws that stage's error. Once the batches exist, it throws on the undeclared `jobRecords` (line 214). |
| `TranslationQueue.MainAsWritten` | scripts/actions/send-and-update-translation-queue.js:272-288 | As written, the exit code is the one `main` derives from its `try` block, which always throws. So every run exits with code 1, whatever the queue and the vendor do. |
| `TranslationQueue.EmptyQueueExitCodes` | scripts/actions/send-and-update-translation-queue.js:262-288 | With nothing pending and a token granted, the corrected `main` exits 0, but `main` as written exits 1. |
| `TranslationQueue.Run` | scripts/actions/send-and-update-translation-queue.js:272-285 | In the corrected `try` block a failing stage throws its own error. Otherwise the result is the outcomes of the planned uploads, one per page. |
| `TranslationQueue.Main` | scripts/actions/send-and-update-translation-queue.js:262-289 | In the corrected run the exit code is 0 or 1. It is 0 exactly when the modelled vendor steps (token, jobs, batches, uploads) all succeed and every upload is accepted. The database and file steps are assumed to resolve (see Left out). |
| `TranslationQueue.StatusKeysAsWrittenUndefined` | scripts/actions/send-and-update-translation-queue.js:242-245 | As written, `updateStatus` looks up every successful upload by an undefined batch uid. |
| `TranslationQueue.StatusKeysFromOrder` | scripts/actions/send-and-update-translation-queue.js:242-249 | Accepted upload `i` is looked up at the position after the lookups of the accepted uploads before it, with its own task's batch uid. |
| `TranslationQueue.StatusKeys` | scripts/actions/send-and-update-translation-queue.js:242-249 | The corrected `updateStatus` makes exactly one lookup per accepted upload, in upload order. Each lookup uses that upload's task's batch uid. |
| `Strings.ReplaceFirst` | scripts/actions/send-and-update-translation-queue.js:119-120 | A string-pattern `replace` rewrites only the first occurrence. A string without the pattern is unchanged. |
| `Strings.RemoveLeading` | scripts/actions/send-and-update-translation-queue.js:119 | Removing a pattern the string starts with drops exactly that prefix. |
| `Sequences.Dedupe` | plugins/gatsby-source-nav/gatsby-node.js:180 | Each value is kept once. Nothing is lost and nothing is added. |
| `Sequences.DedupeOrder` | plugins/gatsby-source-nav/gatsby-node.js:180 | The kept values are listed in the order of their first occurrence in the input. |
| `Sequences.SortPermutes` | plugins/gatsby-source-nav/gatsby-node.js:231-233 | Sorting only reorders: the result is a permutation of the input. |
| `Sequences.SortSorted` | plugins/gatsby-source-nav/gatsby-node.js:231-233 | Under a comparator that is a total preorder, the result is ordered by it. |
| `Sequences.SortStable` | plugins/gatsby-source-nav/gatsby-node.js:231-233 | The sort is stable: elements that compare equal to one another keep their input order. |
| `Grouping.GroupByKeys` | plugins/gatsby-source-nav/gatsby-node.js:258-263 | The keys are the distinct item keys in first-occurrence order. |
| `Grouping.GroupByPartition` | plugins/gatsby-source-nav/gatsby-node.js:258-263 | The keys are distinct and cover every item. Each group holds exactly its key's values in input order. The group sizes add up to the input length. |
| `SourceNav.NavGroupByOrder` | plugins/gatsby-source-nav/gatsby-node.js:258-263 | `groupBy` lists each key once, in order of first occurrence. |
| `SourceNav.NavGroupByItems` | plugins/gatsby-source-nav/gatsby-node.js:258-263 | Each group of `groupBy` holds its key's items in input order, and no item is lost. |
| `SourceNav.FindPageFinds` | plugins/gatsby-source-nav/gatsby-node.js:313-323 | `findPage` finds something exactly when some node of the subtree has the path. It returns the node itself on a direct match, otherwise the first child whose subtree holds the path. |
| `SourceNav.FindChildFinds` | plugins/gatsby-source-nav/gatsby-node.js:322 | Searching the children from `i` on succeeds exactly when a later child's subtree holds the path, and returns the first such child. |
| `SourceNav.NonDefaultLocales` | plugins/gatsby-source-nav/gatsby-node.js:44-46 | The result holds exactly the locales of the non-default `Locale` nodes. |
| `SourceNav.NonDefaultLocalesInOrder` | plugins/gatsby-source-nav/gatsby-node.js:44-46 | The result is the locale of each non-default node, one per node, in node order. |
| `SourceNav.StripToc` | plugins/gatsby-source-nav/gatsby-node.js:227 | A trailing `/table-of-contents` is removed. Any other slug is unchanged. |
| `SourceNav.StripLocale` | plugins/gatsby-source-nav/gatsby-node.js:228 | The slug is unchanged exactly when no alternative `l` opens it as `/l/`. Otherwise `/l` is dropped for the first such alternative. |
| `SourceNav.StripNonDefaultLocale` | plugins/gatsby-source-nav/gatsby-node.js:228 | Once the table-of-contents suffix is gone, a leading `/l` is dropped exactly when `l` is a non-default locale followed by `/`. The slug is otherwise looked up unchanged. |
| `SourceNav.SubNavSlugExample` | plugins/gatsby-source-nav/gatsby-node.js:226-228 | The normalisation alone turns `/jp/docs/agile-handbook/table-of-contents` into `/docs/agile-handbook` when `jp` is a non-default locale. The dispatch never passes that slug to it. |
| `SourceNav.StripTocKeepsDocs` | plugins/gatsby-source-nav/gatsby-node.js:227 | Removing `/table-of-contents` from a slug routed to a sub-nav keeps its `/docs/` opening. |
| `SourceNav.DocsSlugHasNoLocale` | plugins/gatsby-source-nav/gatsby-node.js:228 | No `/l/` opens a slug that starts with `/docs/`, unless `l` is `docs` or holds a `/`. |
| `SourceNav.SubNavLocaleStripIsDead` | plugins/gatsby-source-nav/gatsby-node.js:226-228 | Every slug that reaches `createSubNav` starts with `/docs/`. So unless a locale is `docs` or holds a `/`, the locale strip removes nothing, and the slug looked up is the slug without `/table-of-contents`. |
| `SourceNav.LocalizedSlugMissesSubNav` | plugins/gatsby-source-nav/gatsby-node.js:54-61 | A localised slug `/l/docs/agile-handbook/...` or `/l/docs/style-guide/...` is not routed to `createSubNav`, for any locale `l` other than `docs` without `/`. |
| `SourceNav.LocalizedTocStrip` | plugins/gatsby-source-nav/gatsby-node.js:227 | Prefixing a sub-nav slug with `/l` does not change what the table-of-contents removal cuts. |
| `SourceNav.SameLocalePrefix` | plugins/gatsby-source-nav/gatsby-node.js:228 | Two locales without `/` that both open a slug as `/l/` are the same locale. |
| `SourceNav.StripOwnLocale` | plugins/gatsby-source-nav/gatsby-node.js:228 | A slug opened by a non-default locale `l`, when no locale holds a `/`, loses exactly `/l`. |
| `SourceNav.LocalizedSubNavSlug` | plugins/gatsby-source-nav/gatsby-node.js:226-228 | A localised sub-nav slug is looked up exactly as its unlocalised form. |
| `SourceNav.SubNavCandidates` | plugins/gatsby-source-nav/gatsby-node.js:231-233 | The candidates are exactly the non-root navs, reordered. |
| `SourceNav.ChooseSubNav` | plugins/gatsby-source-nav/gatsby-node.js:235-241 | The choice is the first candidate whose tree holds the slug, else the first whose `path` occurs in the slug, else none. |
| `SourceNav.CreateSubNav` | plugins/gatsby-source-nav/gatsby-node.js:224-247 | The sub-nav is `null` exactly when no candidate matches in either way. It is otherwise the first match in sorted order, a non-root nav with its id replaced. |
| `SourceNav.ResolveFilterable` | plugins/gatsby-source-nav/gatsby-node.js:66-69 | A nav is unfilterable only when it says `filterable: false`. |
| `SourceNav.ResolveUrl` | plugins/gatsby-source-nav/gatsby-node.js:70-72 | The url is `url` when it is truthy and `path` otherwise. It is truthy exactly when one of them is. |
| `SourceNav.ResolvePages` | plugins/gatsby-source-nav/gatsby-node.js:84-86 | The pages are the item's pages, or empty when it has none. |
| `SourceNav.FindTranslatedTitle` | plugins/gatsby-source-nav/gatsby-node.js:295-311 | For `en` the title is the source title. Otherwise it is the first matching translation's title, or the source title when none matches. |
| `SourceNav.Truthies` | plugins/gatsby-source-nav/gatsby-node.js:181 | The result holds exactly the non-empty defined values. |
| `SourceNav.TruthiesInOrder` | plugins/gatsby-source-nav/gatsby-node.js:181 | The result is the truthy values, one per truthy entry, in their original order. |
| `SourceNav.SubjectsSpec` | plugins/gatsby-source-nav/gatsby-node.js:179-187 | Subjects are distinct and are exactly the posts' non-empty subjects. They are sorted whenever the comparator is a total preorder. |
| `SourceNav.ReleaseNotesNavFor` | plugins/gatsby-source-nav/gatsby-node.js:205-221 | The release-notes nav is the overview followed by one entry per subject, in subject order. |
| `SourceNav.SubjectNavPages` | plugins/gatsby-source-nav/gatsby-node.js:189-218 | A subject's entry lists exactly that subject's posts in order. Each entry links to its post and is titled `title`, else `subject v<version>`, else the subject. |
| `SourceNav.ReleaseNotesCoverPosts` | plugins/gatsby-source-nav/gatsby-node.js:202-219 | Every post with a non-empty subject is listed under its subject's entry. |
| `SourceNav.RewriteItemCases` | plugins/gatsby-source-nav/gatsby-node.js:276-286 | A root item fails exactly when it names a category no nav has. Otherwise it is kept, replaced by a generated nav, or given the pages of the first nav of its category. |
| `SourceNav.RewriteItems` | plugins/gatsby-source-nav/gatsby-node.js:275-287 | Mapping the root items succeeds exactly when every item does. It keeps the length and each item's rewrite. |
| `SourceNav.RewriteItemsErrors` | plugins/gatsby-source-nav/gatsby-node.js:275-287 | Mapping the root items can only fail for a category no nav has. |
| `SourceNav.CreateNav` | plugins/gatsby-source-nav/gatsby-node.js:265-293 | Without a nav titled `root` the resolver throws on `rootNav.pages`. With a first root nav that has no `pages`, it throws on the `map`. Otherwise the result is that root nav with every other property kept, its `pages` replaced by a list and its id made from `root`. |
| `SourceNav.CreateNavRootPages` | plugins/gatsby-source-nav/gatsby-node.js:265-293 | The full nav is the first nav titled `root`, with every other property kept, its id replaced and as many items as before. Each item is rewritten by its path. The resolver throws exactly when some item names a missing category. |
| `SourceNav.FullNav` | plugins/gatsby-source-nav/gatsby-node.js:59-61 | The `createNav` branch fails exactly when `createNav` throws, with the same error. Otherwise it answers `createNav`'s nav. |
| `SourceNav.ResolveNav` | plugins/gatsby-source-nav/gatsby-node.js:37-62 | A slug starting with `/docs/agile-handbook` or `/docs/style-guide` gets `createSubNav` with the non-default locales, and never fails. Every other slug gets `createNav`: the same error when it throws, and its nav otherwise. |
| `SourceNav.ResolveNavOutcomes` | plugins/gatsby-source-nav/gatsby-node.js:37-62 | A sub-nav slug gets `null` exactly when no candidate holds it, and otherwise a non-root nav with its id replaced. Any other slug fails with a missing root nav, a root nav without `pages`, or exactly when a root item names an unknown category. Otherwise it gets the root nav with as many items. |
| `SourceNav.ResolveNavLocalized` | plugins/gatsby-source-nav/gatsby-node.js:54-61 | The corrected dispatch tests the sub-nav prefixes on the slug without its non-default locale. |
| `SourceNav.LocalizedSlugGetsSubNav` | plugins/gatsby-source-nav/gatsby-node.js:54-61 | With the corrected dispatch, a page under a sub-nav prefix gets the same answer in every non-default locale as it does unlocalised, for locales named neither `docs` nor with a `/`. |
| `SourceNav.OnCreatePage` | plugins/gatsby-source-nav/gatsby-node.js:91-99 | A page is re-created exactly when its context has no truthy slug. The slug is then set to the page's path. |

## Left out

- The database calls are effects and are left out: `getTranslations`, `addTranslationsJobsRecord`, `addJob`, `getJobs`, `getTranslationsJobsRecords`, `updateJob` and `updateTranslation`. `JobRecords` and `StatusKeys` model what they are given.
- `serializeMDX`, `fs.existsSync` and `fs.readFileSync` are parameters: the predicate `onDisk` and the function `render`. The temporary-file write and its read-back in `uploadFile` (lines 75 and 81) are not performed. Their outcome is the `written` flag of each upload.
- The upload's multipart form (`fileType`, `localeIdsToAuthorize[]`, `fileUri`, the file stream) is not modelled. Only the endpoint path (`UploadEndpoint`) and the decoded reply are. In the model the upload reply is a parameter of the task and does not depend on the path. Of the context form, the model keeps the name, file name and HTML, but not the content type or the context endpoint.
- `TranslationQueue.SendPageContext`: fetching the page and reading its text are one step, and a rejection of either is `None` from the site.
- Logging is not modelled. This includes the "Skipping over" line that `getContent` prints for every slug, including the ones it keeps.
- `Promise.all` concurrency is not modelled. `AwaitAll` and `UploadAll` report the first failure in list order, where JavaScript reports whichever rejects first in time. The exit code is the same either way. As in the source, fields are read only after every request has resolved.
- The exponential backoff delays of the retry policy are not modelled. Only the number and order of calls are.
- `new URL` resolution, base64 and `new Date().toLocaleString()` are symbolic or parameters.
- `resp.json()` failing and a body without a `response` object are both one case: an envelope that is absent.
- Locale keys are assumed not integer-like. JavaScript lists such object keys first.
- Inherited object keys are not modelled. The grouping reads `acc[job.locale]` on an array at the first step and on a plain object after that. A locale named like an `Object.prototype` member (`constructor`, `toString`, `__proto__`) reads an inherited value at any step and behaves differently there.
- `createWhatsNewNav` and `formatPosts` (gatsby-node.js lines 101-141 and 249-256) are not modelled. They depend on the current date and on date parsing, so the what's-new nav is an input to `CreateNav`.
- `createSchemaCustomization` (lines 7-27) is not modelled. It only declares GraphQL types.
- `nodeModel` query filters and sort orders are not modelled. The node sequences are taken as already selected and ordered.
- `localeCompare`, `toLowerCase` and `replace(/\W/, '')` are not modelled. The comparators are abstract parameters. A nav without a title makes `localeCompare` throw in the source, and the model does not capture this.
- `SourceNav.ResolveFilterable`: a `filterable` key that is present with the value `undefined` resolves to `undefined` in the source. The model has no such state.
- `Sequences.SortSorted`: sortedness is stated only for a comparator that is a total preorder.
- `TranslationQueue.Main`: assumes that every database call and file read resolves. This covers `addTranslationsJobsRecord` (line 186), `addJob` (line 212), and `updateStatus` with `getJobs`, `getTranslationsJobsRecords`, `updateJob` and `updateTranslation` (lines 230 and 245-248). It also covers the page promises awaited at line 193, which reject when `readFileSync` or `serializeMDX` fails (lines 57-58). In the source any such rejection is caught and the exit code is 1. `TranslationQueue.Run` makes the same assumption.
- `TranslationQueue.UploadFileNamesDistinct`: holds only for locale codes without `/` and files under `src/content/`. Locale and file are concatenated without a separator, so other inputs can collide, for example `jp` + `x/a.mdx` and `j` + `px/a.mdx`.
- `SourceNav.StripLocale`: the source splices the locales into a regular expression without escaping them. A locale holding a metacharacter (`.`, `+`, `(`) matches differently there. The model compares locales literally.
- `TranslationQueue.UploadPlan`: its own contract states only the count and membership. The exact position of each upload is in `UploadPlanIndex`.

## Findings

| source | as written | input that shows it | evidently intended | confidence | as-written member | corrected member |
|---|---|---|---|---|---|---|
| scripts/actions/send-and-update-translation-queue.js:214-216 | The log line reads `jobRecords`, which is never declared. It throws a `ReferenceError` as soon as the batches exist, so no page is ever uploaded and the script always exits 1. | any run whose token, job and batch requests succeed, even one with nothing pending | log the created records and go on to the uploads | high, not executed | `TranslationQueue.EmptyQueueExitCodes` | `TranslationQueue.Main` |
| scripts/actions/send-and-update-translation-queue.js:217 | The code reads `resp.batchUid`. The batch reply's field is `batch_uid`, the one line 212 reads. | batch reply `{job_uid: "j1", batch_uid: "b1"}` yields an undefined batch uid, so the upload URL ends in `/batches/undefined/file` | `resp.batch_uid` | medium, not executed: the reply's shape is inferred from line 212, not documented. The other vendor replies are camelCase (`translationJobUid` at line 180, `accessToken` in vendor-request.js), so line 212 may be the wrong read instead | `TranslationQueue.BatchUidsAsWrittenUndefined` | `TranslationQueue.BatchUids` |
| scripts/actions/send-and-update-translation-queue.js:244 | `updateStatus` reads `upload.batchUid`. `uploadFile` resolves to `{code, locale, slug}` only. | any accepted upload: `getJobs({batch_uid: undefined})` | look up the batch uid of the batch the page was uploaded to | high, not executed | `TranslationQueue.StatusKeysAsWrittenUndefined` | `TranslationQueue.StatusKeys` |
| plugins/gatsby-source-nav/gatsby-node.js:54-57 | The dispatch tests `/docs/agile-handbook` and `/docs/style-guide` on the slug as it arrives. A localised slug starts with its locale, so it never reaches `createSubNav`, and the locale strip there (line 228) removes nothing for any slug that does arrive. | `/jp/docs/agile-handbook/table-of-contents` with `jp` a non-default locale gets the full nav instead of the agile-handbook sub-nav | test the prefixes on the slug without its locale, so that the locale strip in `createSubNav` applies | medium, not executed | `SourceNav.LocalizedSlugMissesSubNav` | `SourceNav.LocalizedSlugGetsSubNav` |
