# zeyUsBlog: a verified model of the blog's content rules

zeyUsBlog is a React front-end for a personal blog. It stores posts and
newsletter subscribers in a hosted Postgres table and uses a language model
to help the author write. This project models the part of it that decides
what is stored and what is shown, and it proves properties of that model:

- **Derivation rules.** The reading time of a post (words over 200, rounded
  up). The admin slug (Turkish folding, then hyphenation). The anchor id
  given to headings. The table of contents scanned out of the markdown with
  `/^(#{1,3})\s+(.*)$/gm`. The e-mail syntax check. The mapping between a
  table row and a post, with its defaults.
- **The content store** (`Storage.ContentStore`). The posts table is a map
  from id to row, and the subscribers table is a sequence. The class has
  upsert-by-id, delete-by-id, delete-all-but-the-sentinel, seeding, a
  newest-first listing that degrades to `[]` on error, and a subscribe
  operation that treats a duplicate address as success. Its invariant comes
  from the schema the admin page documents: rows are keyed by id, slugs are
  unique, both timestamps are present, and e-mail addresses are unique.
- **The admin console** (`Admin.AdminConsole`). It covers saving a draft,
  with validation and the derived slug, summary, image and reading time. It
  also covers single delete and delete-all, first-run seeding, editing
  state, and the dashboard statistics.
- **The reader's pages.**
  - The home page: featured and recent lists from a stable newest-first
    re-sort, the empty state, and the newsletter form.
  - The post page: first match by slug, related posts, and the table of
    contents with its anchors.
  - The blog list: the category and search filter, and the category menu.

Every call to the database or to the language model is one atomic step. Its
outcome is a parameter: `fault: Option<Fault>` for the store, `AiReply` for
the assistant. The clock is an integer `now`, and fresh ids are parameters.

Some behaviour of the program as written is stated as such in the model:

- In `refreshData`, a failed first fetch reads as an empty table (`getPosts`
  returns `[]` on error), so the samples are seeded even when the table
  holds posts (`Admin.RefreshOutcome`).
- In the table-of-contents pattern, `\s+` can cross a line break: a heading
  with no text takes the next line as its text
  (`PostDetail.HeadingTextMayCrossLines`).
- The table of contents does not skip code fences
  (`PostDetail.MatchIgnoresWhatCameBefore`).
- Heading anchors, unlike slugs, do not fold Turkish letters: "Dünya" gets
  the id `d-nya` (`PostDetail.AnchorIdExample`).
- The blog list search lower-cases the query but does not trim it
  (`BlogList.PaddedQueryIsNotTrimmed`).
- `generateSummary` may return an empty text without failing, and the saved
  summary is then empty: the truncation fallback applies only when the call
  throws (`TextAssist.EmptySummaryIsNoError`, `Admin.ChooseSummaryRules`).
- The blog list's filter reads a post field `excerpt` that the post record
  does not have. The model searches the record's `summary` in its place.

## Model

| member | source | states |
|---|---|---|
| Types.CategoryName | types.ts:2-6 | each category carries a non-empty string value |
| Types.CategoryNameInjective | types.ts:2-6 | two categories carry the same string exactly when they are the same category |
| JsText.Trim | services/storageService.ts:151 | `trim` leaves no whitespace at either end, and yields "" exactly when the text is all whitespace |
| JsText.TrimRemovesOuterWhitespace | services/storageService.ts:151 | `trim` keeps exactly the text between a whitespace-only prefix and a whitespace-only suffix |
| JsText.SplitLengthOfTrim | services/storageService.ts:151 | `text.trim().split(/\s+/).length` is the number of whitespace-separated words, or 1 when there are none |
| JsText.IncludesIffOccurs | pages/BlogList.tsx:33-35 | `includes` holds exactly when the needle occurs at some position |
| JsText.IncludesNeedsRoom | pages/BlogList.tsx:33-35 | a text includes only needles no longer than itself |
| JsText.ToLower | pages/Admin.tsx:170 | lower-casing keeps the length and maps each character (ASCII A-Z and Ğ Ü Ş Ö Ç) on its own |
| JsText.LowerCharNoUpperAscii | pages/Admin.tsx:170 | no ASCII capital survives lower-casing |
| JsText.SkipNonAlnum | pages/Admin.tsx:172 | leaves a suffix of the text that is "" or starts with a letter or digit |
| JsText.SkipNonAlnumDropsOthers | pages/Admin.tsx:172 | everything dropped is outside [a-z0-9], so the dropped part is exactly the leading run |
| JsText.CollapseNonAlnum | pages/Admin.tsx:172 | `.replace(/[^a-z0-9]+/g, '-')` yields only [a-z0-9-], never "--", and is empty only for empty input |
| JsText.CollapseKeepsAlnums | pages/Admin.tsx:172 | collapsing keeps the letters and digits of the text, in order |
| JsText.StripEdgeDashesKeepsAlnums | pages/Admin.tsx:173 | removing the edge dashes keeps every letter and digit |
| JsText.Hyphenate | pages/Admin.tsx:172-173 | the id chain yields only [a-z0-9-], no leading or trailing '-', and never "--" |
| JsText.HyphenateKeepsAlnums | pages/Admin.tsx:172-173 | the id chain keeps exactly the letters and digits of its input, in order |
| JsText.HyphenateTwoWords | pages/Admin.tsx:172-173 | two words joined by any separator run, with any trailing run, become `word-word` |
| JsText.NatToStringRoundTrip | pages/Admin.tsx:181 | the decimal rendering of a number reads back as that number |
| JsText.IntToString | pages/Admin.tsx:181 | the rendering of an integer is non-empty and reads back as the integer: its digits for a non-negative one, '-' then the digits of its absolute value for a negative one |
| Seqs.Filter | pages/Admin.tsx:124 | `filter` keeps exactly the elements that pass, and nothing else |
| Seqs.FilterMembership | pages/BlogList.tsx:26 | a value is kept exactly when it is in the list and passes the test |
| Seqs.FilterIsSubsequence | pages/BlogList.tsx:26 | `filter` keeps the order of what it keeps |
| Seqs.FilterFilter | pages/BlogList.tsx:25-36 | filtering twice is filtering once by both tests |
| Seqs.FilterCommutes | pages/BlogList.tsx:25-36 | two filters give the same result in either order |
| Seqs.Take | pages/BlogPost.tsx:34 | `slice(0, n)` is the prefix of length min(n, length) |
| Seqs.SortDesc | pages/Home.tsx:27-29 | the sort keeps the length and is a permutation |
| Seqs.SortDescSorted | pages/Home.tsx:27-29 | the sort orders keys non-increasingly |
| Seqs.SortDescStable | pages/Home.tsx:27-29 | the sort is stable: elements with equal keys keep their relative order |
| Seqs.SortDescMapped | services/storageService.ts:35 | sorting keeps the multiset of any projection, such as the ids |
| Storage.CeilDiv | services/storageService.ts:152 | `Math.ceil(a / b)`: the least r with a <= r * b |
| Storage.ReadingTime | services/storageService.ts:148-153 | the reading time is 0 exactly for the empty text |
| Storage.ReadingTimeOfWords | services/storageService.ts:150-152 | for a non-empty text, the reading time is ceil(words / 200), counting at least one word |
| Storage.ReadingTimeOfBlankText | services/storageService.ts:149-152 | a non-empty text of whitespace only takes 1 minute, not 0 |
| Storage.ReadingTimeMonotone | services/storageService.ts:151-152 | more words never take less time |
| Storage.FirstIndex | services/storageService.ts:96 | the position of the first occurrence of a character, or the length when it is absent |
| Storage.ValidEmailMatchesPattern | services/storageService.ts:96 | the check accepts exactly `local@host.top`, where each part is a non-empty run without whitespace or '@' and the '.' has a non-empty part on each side |
| Storage.ValidEmailSplits | services/storageService.ts:96 | an accepted address splits into its parts at an '@' and a '.' |
| Storage.SplitsValidEmail | services/storageService.ts:96 | any address that splits so is accepted |
| Storage.MapPostDefaults | services/storageService.ts:6-19 | the date prefers created_at, then date, then now; a missing category is Makale; non-list tags are []; a missing flag is false; a missing reading time is 0 |
| Storage.SavedRowRoundTrip | services/storageService.ts:56-70 | reading back the row `savePost` writes gives the post, except that updatedAt is the save time |
| Storage.SeedRowRoundTrip | services/storageService.ts:125-138 | reading back a seeded row gives the sample post unchanged |
| Storage.Upsert | services/storageService.ts:72 | an upsert adds its id to the keys and stores the new row under it |
| Storage.UpsertTouchesOnlyItsId | services/storageService.ts:72 | an upsert leaves every other id's row as it was |
| Storage.UpsertAllKeeps | services/storageService.ts:140 | a batch upsert keeps the table well keyed, and its keys are the old keys plus the batch's ids |
| Storage.DeleteById | services/storageService.ts:77 | after the delete the id is absent |
| Storage.DeleteByIdEffect | services/storageService.ts:76-79 | deleting removes exactly that id, keeps the other rows, and is a no-op for an absent id |
| Storage.DeleteAllButSentinel | services/storageService.ts:81-85 | only the all-zero sentinel id can remain, and its row is kept |
| Storage.ListingLength | services/storageService.ts:31-43 | a listing has one post per row |
| Storage.ListingShowsRow | services/storageService.ts:31-43 | every row appears in the listing as its mapped post |
| Storage.ListingDateIsCreatedAt | services/storageService.ts:35 | a listed post's date is its row's created_at, the column the listing is ordered by |
| Storage.SortedCollectionIsListing | services/storageService.ts:35-42 | sorting the mapped rows by date, newest first, gives a listing |
| Storage.OccurrencesUnique | services/storageService.ts:101-108 | with unique addresses, an address is stored at most once, and once exactly when present |
| Storage.OccurrencesAppend | services/storageService.ts:103 | an insert adds one occurrence of its own address and none of any other |
| Storage.SubscribeOutcome | services/storageService.ts:94-109 | a subscribe fails only with the invalid-address error or with a database error other than 23505 |
| Storage.SubscribeValidPasses | services/storageService.ts:106 | a valid address succeeds both when the insert works and when it hits the unique constraint |
| Storage.SubscribeStoresOnce | services/storageService.ts:101-108 | after a successful subscribe the address is stored exactly once |
| Storage.ContentStore.constructor | services/storageService.ts:21 | the store starts with empty tables, which satisfy the invariant |
| Storage.ContentStore.GetPosts | services/storageService.ts:31-43 | `[]` on error, otherwise a listing: every row once, mapped, newest first |
| Storage.ContentStore.SavePost | services/storageService.ts:56-74 | upserts the post's row stamped with the save time; an error (or a slug clash, 23505) leaves the table as it was |
| Storage.ContentStore.DeletePost | services/storageService.ts:76-79 | deletes the id on success and changes nothing on error |
| Storage.ContentStore.DeleteAllData | services/storageService.ts:81-90 | leaves only the sentinel row on success and changes nothing on error |
| Storage.ContentStore.SeedData | services/storageService.ts:124-146 | upserts every sample's row in one batch; an error (repeated ids: 21000; a slug clash: 23505) leaves the table as it was |
| Storage.ContentStore.AddSubscriber | services/storageService.ts:94-109 | rejects a malformed address with no insert, treats 23505 as success, and appends the new subscriber otherwise |
| Storage.ContentStore.GetSubscribers | services/storageService.ts:111-122 | `[]` on error, otherwise every subscriber, newest first |
| TextAssist.GenerateSummary | services/geminiService.ts:9-26 | succeeds exactly when the model replies, with the reply's possibly empty text; without a key it fails with "API Key eksik.", and a failed call fails with the service's message |
| TextAssist.FixGrammar | services/geminiService.ts:28-45 | succeeds exactly when the model replies; a non-empty reply is the correction, an empty reply gives back the content, so non-empty content never becomes empty |
| TextAssist.EmptySummaryIsNoError | services/geminiService.ts:21 | an empty reply is a successful, empty summary |
| Admin.FoldTurkish | pages/Admin.tsx:171 | each of ğ ü ş ı ö ç becomes g u s i o c, and every other character is kept |
| Admin.ChooseSlug | pages/Admin.tsx:170-173 | a non-empty draft slug is kept verbatim; otherwise the slug has only [a-z0-9-], no edge '-' and no "--" |
| Admin.DeriveSlugKeepsLettersAndDigits | pages/Admin.tsx:170-173 | the derived slug keeps exactly the letters and digits of the folded, lower-cased title |
| Admin.DeriveSlugExample | pages/Admin.tsx:170-173 | "Merhaba Dünya!" becomes "merhaba-dunya" |
| Admin.ChooseSummaryRules | pages/Admin.tsx:160-178 | a draft summary is kept, else the AI text is used, else the first 150 characters of the content plus "..." |
| Admin.PlaceholderImage | pages/Admin.tsx:181 | the placeholder is the picsum URL followed by the rendering of the time, which reads back as the time when it is not negative |
| Admin.PostToSaveRecord | pages/Admin.tsx:175-182 | the saved record keeps the draft's id, date, title, content, category, tags and flag, always has an image, and has the reading time of its content, at least 1 |
| Admin.StatsBounds | pages/Admin.tsx:86-92 | featured <= total, at most 3 categories, and no categories exactly when there are no posts |
| Admin.PostWordsAreTokens | pages/Admin.tsx:91 | a post's word count is the word count the reading time uses |
| Admin.TotalWordsAppend | pages/Admin.tsx:91 | the total word count adds up over concatenation |
| Admin.TotalWordsAtLeastPostsWithContent | pages/Admin.tsx:91 | each post with content counts at least one word, and empty content counts 0 |
| Admin.RemovePostEffect | pages/Admin.tsx:124 | removal drops exactly the posts with that id, keeps the rest in order, and is a no-op for an absent id |
| Admin.RefreshKeepsRows | pages/Admin.tsx:55-83 | a refresh never loses a row and shows either nothing or a listing of the table |
| Admin.SavedPostIsShown | pages/Admin.tsx:184-187 | after a successful save, a refresh whose first fetch works shows the saved post stamped with the save time |
| Admin.AdminConsole.constructor | pages/Admin.tsx:14-25 | the console starts with empty lists, an empty draft, no editing and no pending delete |
| Admin.AdminConsole.RefreshData | pages/Admin.tsx:55-83 | the table and shown list satisfy the refresh outcome, and the subscribers list is `[]` on error, otherwise all subscribers newest first |
| Admin.AdminConsole.CreateNew | pages/Admin.tsx:96-110 | the draft is a fresh empty Makale post with the given id and time, and editing starts |
| Admin.AdminConsole.Edit | pages/Admin.tsx:112-115 | the draft is the chosen post, and editing starts |
| Admin.AdminConsole.Cancel | pages/Admin.tsx:243 | editing stops, and everything else is unchanged |
| Admin.AdminConsole.RequestDelete | pages/Admin.tsx:412 | the id becomes the pending delete |
| Admin.AdminConsole.AbortDelete | pages/Admin.tsx:477 | the pending delete is cleared |
| Admin.AdminConsole.ExecuteDelete | pages/Admin.tsx:117-135 | without a pending id nothing happens; on success the id leaves the table and the shown list; on failure both stay; the confirmation closes either way |
| Admin.AdminConsole.DeleteAll | pages/Admin.tsx:137-151 | only after confirmation; on success the table keeps only the sentinel and the list is empty; otherwise nothing changes |
| Admin.AdminConsole.SavePost | pages/Admin.tsx:153-193 | without a title or content: rejected, and no AI or store call is made; a failed write leaves the state as it was and editing on; success writes the derived record, refreshes the posts and the subscriber list and leaves the editor |
| Admin.AdminConsole.FixGrammar | pages/Admin.tsx:195-202 | with content, the draft's content becomes the correction, and a failure changes nothing; without content nothing happens |
| PostDetail.FindBySlug | pages/BlogPost.tsx:26 | a found post is in the list and has that slug |
| PostDetail.FindBySlugFirst | pages/BlogPost.tsx:26-28 | the found post is the first with the slug, and none is found exactly when no post has it |
| PostDetail.FoundPostIsTheRow | pages/BlogPost.tsx:24-27 | with unique slugs, the page shows the stored post with that slug, exactly when one exists |
| PostDetail.RelatedPostsShape | pages/BlogPost.tsx:32-34 | related posts are at most 3, in list order, in the same category with another id, and fewer only when no more exist |
| PostDetail.RunLength | pages/BlogPost.tsx:64 | the length of a character run stays within the text |
| PostDetail.RunLengthMaximal | pages/BlogPost.tsx:64 | the run is as long as it can be (greedy quantifiers) |
| PostDetail.MatchAt | pages/BlogPost.tsx:64 | a match starts where it was tried and ends after it, within the text |
| PostDetail.MatchAtIffHeading | pages/BlogPost.tsx:64 | the pattern matches exactly at a line start with 1 to 3 '#' then whitespace; the level is the count of '#', and the text stays on one line |
| PostDetail.DeepHeadingExcluded | pages/BlogPost.tsx:64 | a line starting with four or more '#' does not match |
| PostDetail.NextMatch | pages/BlogPost.tsx:66 | `exec` returns the first match at or after lastIndex, and null when there is none |
| PostDetail.AnchorId | pages/BlogPost.tsx:69 | an anchor id has only [a-z0-9-] |
| PostDetail.GenerateToC | pages/BlogPost.tsx:62-73 | the loop collects one entry per successive match, which is the table of contents |
| PostDetail.TocEntriesWellFormed | pages/BlogPost.tsx:66-70 | every entry has level 1 to 3, one-line text, and the anchor id of its text: the same id function the h1-h3 renderers apply to the rendered heading text, so the two agree for plain-text headings |
| PostDetail.MatchIgnoresWhatCameBefore | pages/BlogPost.tsx:64 | at a line start, the match depends only on the text from there on: code fences are not skipped |
| PostDetail.MatchShift | pages/BlogPost.tsx:64 | at a line start, the match in the whole text is the match at 0 of the text that follows, moved by its offset |
| PostDetail.MatchAtFound | pages/BlogPost.tsx:64 | a heading start matches with its '#' count as level and the rest of the line after the whitespace run as text |
| PostDetail.HeadingTextMayCrossLines | pages/BlogPost.tsx:64 | "#\n## Next" yields one level-1 heading whose text is "## Next" |
| PostDetail.AnchorIdExample | pages/BlogPost.tsx:69 | "Dünya" gets the anchor id "d-nya" |
| PostDetail.PostPage.constructor | pages/BlogPost.tsx:13-18 | the page starts loading, with no post, contents or related posts |
| PostDetail.PostPage.FetchData | pages/BlogPost.tsx:20-46 | without a slug nothing happens; otherwise loading ends and the page shows the first listed post with the slug, with its contents and related posts, keeping the old ones when nothing is found |
| PostDetail.PostPage.ShowPost | pages/BlogPost.tsx:26-36 | the shown post is the first with the slug; a found post brings its contents and related posts; otherwise they stay |
| Home.SortByDateSpec | pages/Home.tsx:27-29 | the re-sort is a permutation, newest first, and stable on equal dates |
| Home.HomeListsShape | pages/Home.tsx:31-32 | featured: at most 3 featured posts of the sorted list, in order, fewer only when no more exist; recent: its first min(5, n) posts |
| Home.EmptyStateIffNoPosts | pages/Home.tsx:82 | both lists are empty exactly when no post was fetched |
| Home.FailureMessage | pages/Home.tsx:57-61 | a failed subscription shows one of the two messages |
| Home.MissingTableGetsMaintenance | pages/Home.tsx:57-58 | an error text containing the missing-table phrase anywhere gets the maintenance message |
| Home.InvalidAddressGetsCheckMessage | pages/Home.tsx:54-61 | a malformed address fails and gets the "check your address" message |
| Home.HomePage.constructor | pages/Home.tsx:11-18 | the page starts loading with empty lists and an idle, empty form |
| Home.HomePage.LoadData | pages/Home.tsx:21-38 | the lists are the featured and recent projections of the re-sorted listing; the empty state shows exactly when the fetch failed or the table is empty |
| Home.HomePage.HandleSubscribe | pages/Home.tsx:43-63 | an empty field changes nothing; success clears the field; failure keeps it and shows the message the error text selects; the subscriber is appended exactly when the address is valid and the insert raises no error |
| BlogList.CategoryMenu | pages/BlogList.tsx:42 | the menu is 'Tümü' followed by the three categories in declaration order: DevLog, Makale, Proje |
| BlogList.CategoryMenuDistinct | pages/BlogList.tsx:42 | the menu entries are distinct |
| BlogList.FilterPostsIsBoth | pages/BlogList.tsx:21-40 | the two optional steps together are one filter by the category test and the search test |
| BlogList.FilterPostsSpec | pages/BlogList.tsx:21-40 | the result keeps, in order, exactly the posts that pass the category step and the search step |
| BlogList.FiltersCommute | pages/BlogList.tsx:25-36 | searching first and filtering by category second gives the same list |
| BlogList.BlankQueryShowsCategory | pages/BlogList.tsx:25-30 | with a blank query, 'Tümü' shows every post and a category shows exactly its posts |
| BlogList.PaddedQueryIsNotTrimmed | pages/BlogList.tsx:30-31 | a blank-free query padded with a space is searched untrimmed, so it misses a post whose title is the query's text |

## Left out

- Network, async ordering and spinners: each store or AI call is one atomic step, and its success or failure is a parameter. `isSaving`, alerts and console logging are not modelled.
- The Supabase client: the tables are an in-memory map of rows and a sequence of subscribers. The database generates uuid ids and timestamp defaults; these are not modelled, and ids are opaque strings. The sample ids '1' to '7' are not uuids: under the schema in pages/Admin.tsx:516 (`id uuid`) the database would reject their upsert, so the seeding branch of `Admin.RefreshOutcome` succeeds only with a text id column.
- A row whose category is not one of the three values: categories form a closed type.
- `testConnection` and `getPostBySlug`: the modelled pages do not call them.
- The language model: prompts, the 3000-character prompt cut and the model's behaviour are outside the model. A reply is a parameter.
- The admin password gate, the image upload through FileReader, the SQL setup text, routing, theme, SEO tags, static pages and markdown rendering. Only the id function the h1-h3 renderers apply (pages/BlogPost.tsx:211-213) is modelled, as `PostDetail.AnchorId`, and only over the contents entry's captured text. The renderers apply it to `String(children)` of the rendered heading, which differs in three cases the model does not capture: a heading with inline markup (`## Hello **world**` has the contents id "hello-world" but renders with "hello-object-object", so the link misses); a '#' line inside a code fence, which gets a contents entry but no rendered heading; and a heading whose text crosses a line (`#\n## Next` gives one level-1 entry, while the page renders an empty h1 and an h2).
- The blog list's load (pages/BlogList.tsx:13-19): it sorts an unawaited promise by a field `publishedAt` that posts do not have. The filter is modelled over a given list.
- BlogList.FilterPosts: the search reads `p.excerpt` (pages/BlogList.tsx:34), which the post record does not have, so as written `p.excerpt.toLowerCase()` throws for every post whose title does not include the query. The model reads `summary` in its place and does not model the exception.
- Dates are integers. Parsing ISO strings, `toLocaleDateString` and the reading-progress percentage are not modelled.
- JsText.ToLower: maps only ASCII A-Z and Ğ Ü Ş Ö Ç. Full Unicode lower-casing (such as 'İ' becoming two code points) is not modelled.
- Strings are sequences of characters, not UTF-16 code units. A character outside the Basic Multilingual Plane is one character here, which the id chain treats the same way.
- PostDetail.PostPage.FetchData: the `catch` branch is not modelled, because `getPosts` never throws.
- Home.HomePage.LoadData: the `catch` branch is not modelled for the same reason. A failed fetch reads as an empty listing.
- Admin.AdminConsole.RefreshData: errors from the subscriber fetch are not thrown (`getSubscribers` returns `[]`), so its `catch` branches are not modelled.
