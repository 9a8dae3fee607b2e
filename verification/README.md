# Engagement tracker core, modelled in Dafny

This project models the core of a social-media engagement tracker: a FastAPI back end
(`backend/server.py`) where an administrator uploads the management roster of a platform
(Instagram or X) and, for each post, a file of the usernames that engaged with it. It then
asks which roster members engaged. Every username, on either side, passes through a single
normaliser. The engagement analysis is an exact string match of normalised keys.

The modules follow the structure of the server:

- `Results` (`results.dfy`) holds `Option`, `Result` and the HTTP failures (400 and 404) with their reasons.
- `Seqs` (`seqs.dfy`) holds the order-preserving `Filter` that the list comprehensions of the source use, and Python's `s[:n]`.
- `Normalizer` (`normalizer.dfy`) models `normalize_username`. It has a step-by-step pipeline
  (`Normalize`) and a one-pass reference definition (`Canonical`: lowercase, then keep
  `[a-z0-9]`). A proof shows the two are equal.
- `Ingest` (`ingest.dfy`) models `process_csv_excel_file`. It covers:
  - the media-type test;
  - the encoding fallback for CSV;
  - the choice of the username column;
  - extraction and normalisation of that column;
  - the 400 error for every failure.
- `Reconciler` (`reconcile.dfy`) models the matching step of `analyze_engagement`. The roster
  is split in order into engaged and not-engaged members, and the percentage is computed.
  It has a functional definition and a method with the source's loop.
- `Diagnostics` (`diagnostics.dfy`) models the report of `debug_normalization`.
- `Storage` (`storage.dfy`) models the store and the endpoints that change or read it.
  The `users`, `posts` and `engagements` collections are sequences in insertion order.
  Each endpoint maps the store and its request to the new store and the response.
  The endpoints are:
  - `upload_users`, which fully replaces a platform's roster;
  - `add_user_manually`, which appends with no duplicate check;
  - `delete_post`, which deletes the engagement records before checking that the post exists;
  - `upload_engagement`, which fully replaces a post's engagement records;
  - the analysis and debug endpoints.
- `Weekly` (`weekly.dfy`) models `get_weekly_report` on a given list of the week's posts.

## Model

| member | source | states |
|---|---|---|
| Normalizer.Normalize | backend/server.py:103-127 | The key contains only `[a-z0-9]` and is never longer than the input; a null username gives the empty key |
| Normalizer.NormalizeMatchesCanonical | backend/server.py:103-127 | The step-by-step pipeline (strip, delete `@`, lowercase, delete separator runs, delete non-key characters) equals the reference "lowercase then keep `[a-z0-9]`" on every input |
| Normalizer.NormalizeIsCanonical | backend/server.py:109-125 | After stripping, the remaining steps compute the reference key; a blank-after-strip input has an empty reference key |
| Normalizer.NormalizeIdempotent | backend/server.py:103-127 | Normalising an already normalised username changes nothing |
| Normalizer.NormalizeEmptyIff | backend/server.py:105-127 | The key is empty exactly when the username is null or none of its characters is an ASCII letter, an ASCII digit, U+0130 or U+212A |
| Normalizer.NormalizeBlank | backend/server.py:105-112 | Null input, empty input and whitespace-only input all give the empty key |
| Normalizer.EquivalentSpellings | backend/server.py:115-125 | Two spellings that differ only in `@` signs, case, whitespace, dots, underscores or hyphens get the same key |
| Normalizer.NormalizeViaSkeleton | backend/server.py:115-125 | The key is the lowercased input with `@` and separators removed, restricted to `[a-z0-9]` |
| Normalizer.CanonicalStrip | backend/server.py:109 | Stripping surrounding whitespace never changes the key |
| Normalizer.KeyCharsWithoutSeparators | backend/server.py:122-125 | Deleting separator runs before the final filter keeps exactly the characters the final filter keeps |
| Normalizer.KeyPartIsFilteredLower | backend/server.py:118-125 | Each character contributes its lowercase form restricted to `[a-z0-9]`, at most one character |
| Normalizer.CanonicalEmptyIff | backend/server.py:118-125 | The reference key is empty exactly when no character contributes |
| Normalizer.CanonicalOfKey | backend/server.py:118-125 | A string over `[a-z0-9]` is its own key |
| Ingest.CsvTypeByMention | backend/server.py:133 | A media type is read as CSV exactly when it contains `csv` in any letter case; the `text/csv` prefix test is subsumed |
| Ingest.FirstDecoding | backend/server.py:135-142 | The chosen encoding is the first in the order utf-8, utf-8-sig, latin1, cp1252 that decodes the bytes; none is chosen exactly when all fail |
| Ingest.Latin1MakesDecodingTotal | backend/server.py:135-142 | If latin1 accepts the bytes, decoding succeeds at utf-8, utf-8-sig or latin1 and the encoding error cannot occur |
| Ingest.ReadTable | backend/server.py:131-145 | A missing media type, a CSV that no encoding decodes and an unreadable file each fail with 400; a decodable CSV is parsed from the text of the first encoding that decodes it, and a parser failure is a 400; a non-CSV upload is read as a spreadsheet |
| Ingest.SelectColumn | backend/server.py:148-163 | The first of username, kullanici_adi, kullanıcı_adı, user, name, isim that is a header name is chosen exactly, else the first column; a table with no columns has no choice |
| Ingest.Usernames | backend/server.py:166-174 | Every extracted entry is a non-empty `[a-z0-9]` key, at most one per cell |
| Ingest.UsernamesMembership | backend/server.py:166-174 | A key is extracted exactly when it is non-empty and some present cell of the column normalises to it |
| Ingest.UsernamesAppend | backend/server.py:170-174 | Extraction keeps row order and duplicates: the keys of two row blocks are the keys of each block in order |
| Ingest.UsernamesAtMostPresent | backend/server.py:166 | Missing (NaN) cells contribute nothing: at most one key per present cell |
| Ingest.IngestUpload | backend/server.py:129-185 | Every failure is a 400; success gives a non-empty list of non-empty keys, and happens exactly when the table is read, has a column, and the chosen column yields a key |
| Ingest.IngestTakesChosenColumn | backend/server.py:148-174 | A successful result is the key list of the chosen column, which is one of the table's header names |
| Reconciler.Matched | backend/server.py:377-384 | Every engaged entry is on the roster and among the engagement usernames |
| Reconciler.Unmatched | backend/server.py:377-384 | Every not-engaged entry is on the roster and not among the engagement usernames |
| Reconciler.MatchedIsFilter | backend/server.py:377-384 | The engaged list is the roster filtered by membership in the engaged set and the not-engaged list the roster filtered by non-membership, order and duplicates kept |
| Reconciler.MatchedMembership | backend/server.py:377-384 | A name is engaged exactly when it is on the roster and engaged, and not engaged exactly when it is on the roster and not engaged |
| Reconciler.MatchedSplits | backend/server.py:377-384 | The engaged and the not-engaged lists together are the roster, counted with multiplicity |
| Reconciler.MatchedAppend | backend/server.py:379-384 | The engaged list of a roster block sequence is the concatenation, so roster order is kept |
| Reconciler.UnmatchedAppend | backend/server.py:379-384 | The same for the not-engaged list |
| Reconciler.Percentage | backend/server.py:389 | Zero for an empty roster; otherwise the value times the roster size is 100 times the engaged count; never negative and at most 100 when the part does not exceed the whole |
| Reconciler.Reconcile | backend/server.py:371-397 | Totals equal the list lengths; engaged plus not engaged is the roster as a multiset; every engaged name occurs among the engagements and no not-engaged name does; the percentage is the engaged share |
| Reconciler.ReconcileMembership | backend/server.py:377-384 | A roster member is engaged exactly when some engagement record carries its name |
| Reconciler.ReconcilePercentage | backend/server.py:389 | The percentage lies in [0, 100], is 0 for an empty roster and is otherwise the engaged share |
| Reconciler.ReconcileAppend | backend/server.py:379-384 | Extending the roster only appends to both lists |
| Reconciler.AnalyzeEngagement | backend/server.py:371-389 | The loop over the roster computes exactly the functional analysis |
| Reconciler.ThreeMemberExample | backend/server.py:371-397 | Roster a, b, c against engagements a, c gives two engaged of three, 200/3 percent |
| Reconciler.EmptyRosterExample | backend/server.py:389 | An empty roster gives 0 percent whatever the engagements |
| Diagnostics.Extras | backend/server.py:477-478 | The extras are the engagement names filtered by absence from the roster, in engagement order with duplicates kept |
| Diagnostics.Diagnose | backend/server.py:461-506 | Matches and mismatches are the analysis lists; every count is the length of its list; the full lists are the inputs; each sample is the first ten entries (or all when fewer); extras are the engagement names off the roster, filtered in engagement order with duplicates kept |
| Diagnostics.ExtrasMembership | backend/server.py:477-478 | A name is an extra exactly when it is an engagement name not on the roster |
| Diagnostics.DiagnoseAsSets | backend/server.py:468-478 | As sets: extras are engaged minus roster, matches are roster intersect engaged, mismatches are roster minus engaged |
| Diagnostics.ExtrasKeepDuplicates | backend/server.py:478 | Extras are a list, not a set: two records of one unlisted name give two extras |
| Diagnostics.TwoMemberExample | backend/server.py:464-478 | Roster a, b against engagements a, c gives match a, mismatch b and extra c |
| Storage.FindPost | backend/server.py:311-313 | The found post is the first with that id; none is found exactly when no post has the id |
| Storage.UploadUsers | backend/server.py:199-234 | An invalid platform is a 400 and an ingest failure passes its 400 through, both leaving the store unchanged; a valid platform with a successful ingest succeeds; on success the store is the roster replacement with the extracted list, the platform's roster is exactly that list, the reported count is its length, other platforms, posts and engagements are unchanged, and stored names stay non-empty keys |
| Storage.ReplaceRoster | backend/server.py:219-231 | Nothing changes when there is nothing to insert; otherwise the platform's roster becomes exactly the given names, every other platform keeps its entries, posts and engagements are untouched, and stored names stay non-empty keys when the new ones are |
| Storage.ReplaceUsersQueries | backend/server.py:220-226 | After deleting a platform's users and inserting new ones for it, that platform sees only the new entries and every other platform its old ones |
| Storage.AddUser | backend/server.py:237-250 | An invalid platform or a username with an empty key is a 400 with the store unchanged; otherwise the request succeeds and the normalised entry is appended to the platform's roster even if already present |
| Storage.AppendUserFacts | backend/server.py:249 | Inserting one user adds it at the end of its platform's roster and changes no other platform |
| Storage.RemoveAt | backend/server.py:299 | Removing one post keeps all others in order and removes exactly that post from the multiset |
| Storage.DeletePost | backend/server.py:293-303 | The post's engagement records are removed whether or not the post exists; other posts' records are unchanged; 404 exactly when no post has the id; otherwise the first post with the id is removed |
| Storage.UploadEngagements | backend/server.py:304-346 | A missing post is a 404 before the file is read; an ingest failure passes its 400 through; both leave the store unchanged; an existing post with a successful ingest succeeds; on success the store is the engagement replacement for the post with its platform, the post's engagement names are exactly the uploaded keys, the reported count is their number, and stored names stay non-empty keys |
| Storage.ReplaceEngagements | backend/server.py:322-339 | The post's records become one record per non-empty name, tagged with the post and platform; with no empty names the post's engagement names are exactly the given list; every other post's records, the users and the posts are untouched; stored names stay non-empty keys when the new ones are keys |
| Storage.ReplaceEngagementsQueries | backend/server.py:322-339 | After deleting a post's records and inserting new ones for it, that post sees only the new records and every other post its old ones |
| Storage.AnalyzePost | backend/server.py:349-400 | 404 exactly when the post is missing; otherwise the analysis of the post's platform roster against the post's engagement names |
| Storage.DebugPost | backend/server.py:446-506 | An error exactly when the post is missing, and then a 404; otherwise the report is the diagnostics report of the post's platform roster against its engagement names, so its counts, first-ten samples, extras and matched/unmatched split are those of `Diagnose`, and the split is the analysis's |
| Storage.UploadReplacesRoster | backend/server.py:220-226 | After a roster replacement, analysing a post of that platform counts exactly the uploaded names, a name left out of the upload is neither engaged nor not engaged, and each uploaded name is engaged exactly when the post's unchanged records carry it |
| Storage.UploadDecidesAnalysis | backend/server.py:322-339 | After an engagement replacement for a post, a roster member of its platform is engaged with the post exactly when the uploaded list names it |
| Weekly.EngagedCount | backend/server.py:415-423 | The number of engaged posts never exceeds the number of the week's posts on the user's platform |
| Weekly.Row | backend/server.py:411-433 | A row carries the user's name and platform, the number of the week's platform posts with a record under the user's name as engaged posts (at most total posts), and the rate as the engaged share in [0, 100] |
| Weekly.ActiveRowIffEngaged | backend/server.py:415-441 | A report row counts as active exactly when some post of the week on the user's platform has an engagement record with the user's name |
| Weekly.WeeklyReport | backend/server.py:403-443 | One row per stored user in order; total users and total posts are the counts; active users are the number of rows with an engaged post, never more than total users |
| Weekly.ActiveCountIsFilter | backend/server.py:441 | The active count is the length of the list of rows whose engaged-post count is positive |
| Weekly.EngagedCountPositive | backend/server.py:415-423 | A user has engaged posts exactly when some week post on its platform has an engagement record with its name |
| Weekly.EngagedEverywhere | backend/server.py:414-425 | A user with a record on every week post of its platform has engaged posts equal to total posts |
| Weekly.HasEngagementIffEngagedName | backend/server.py:418-421 | Finding a record by post id and username is the same as the name appearing among the post's engagement names |
| Weekly.WeeklyAgreesWithAnalysis | backend/server.py:415-423 | For a roster member, a post counts in the weekly report exactly when the post's analysis lists the member as engaged |
| Weekly.CountPosts | backend/server.py:413-423 | The nested loops count the platform's week posts and the engaged ones as the functional definitions do |
| Weekly.BuildWeeklyReport | backend/server.py:403-443 | The loop over users builds exactly the functional report |

## Left out

- HTTP routing, authentication, CORS, logging and response messages are not modelled; only status codes and data are kept.
- MongoDB I/O is replaced by sequences in insertion order. The `to_list(1000)` and `to_list(100)` caps are not modelled, nor are generated ids and `created_at` timestamps.
- Text decoding, `pd.read_csv` and `pd.read_excel` are parameters (`Ingest.Readers`), because they are foreign code. So are their dtype inference and `astype(str)`. A UTF-8 byte-order mark is therefore not modelled either: the utf-8 codec leaves U+FEFF at the start of the text handed to `readCsv`, and utf-8-sig is tried only when utf-8 fails; what the CSV reader does with the mark is not modelled.
- Column names are matched exactly and case-sensitively, as the server code does (backend/server.py:152-156). For duplicate header names the model takes the first column; pandas renames duplicates.
- Normalizer.Normalize: lowercasing is modelled only as far as it can yield ASCII: A-Z, U+0130 and U+212A. Every other non-ASCII character keeps a non-ASCII lowercase form that the final `[a-z0-9]` filter removes, so the resulting key is the same.
- Reconciler.Percentage: the value is exact; the source's `round(..., 2)` and floating-point arithmetic are not modelled.
- Weekly.Row: the rate is exact, without `round(..., 2)`.
- Weekly.WeeklyReport: the week's posts are an input; selecting posts created in the last seven days needs the clock.
- Each replacement (`upload_users`, backend/server.py:222-225; `upload_engagement`, backend/server.py:323-338) is one atomic transition here. In the server the `delete_many` and the `insert_many` are two separate awaits: a concurrent request can run between them, and a failed insert leaves the platform's roster or the post's records empty or partial. Concurrency and database failures are not modelled.
- `delete_user`, `create_post`, `get_users`, `get_posts`, the login route and the PDF export are not part of this model.
