# LLM feed bot: the background workers, modelled in Dafny

`llm_bot.py` is a desktop tool that collects text documents in one directory
and enriches them with a locally hosted completion endpoint. Each button in
its window starts a worker. The workers fetch web pages, summarise and
classify fresh documents, pull fenced code blocks out of documents, rebuild
a full-text index, and answer a question about one document. This project
models the sequential logic of those workers and proves what each one does.

The model is built from these pieces:

- **The document directory** is a `DataRoot` object holding a map from file
  name to `Doc(content, mtime)`. The workers update it in place through
  `Write`.
- **Listing and time.** The order in which `glob("*.txt")` lists the files is
  an input, `listing`, and it must list exactly the `*.txt` files present when
  the run starts. The clock read once at the start of a run is an input,
  `now`. The modification time that written files get is an input, `t`.
- **The completion endpoint** is an oracle. `replies[i]` is what it answers
  for the i-th listed file: `Ok(content)` or `Failed(reason)`. Each run
  returns the requests it posted, so prompts, `n_predict` and timeouts are
  part of what is proved.
- **The network** is an oracle too. `outcomes[i]` is what fetching
  `urls[i]` returns. BeautifulSoup's HTML-to-text step is an uninterpreted
  function parameter, `html`.
- **The file system.** The question worker reads any path the window's file
  list offers, by its full path: a `*.txt` file under the home directory or
  under the data directory. Its input `disk` maps every readable full path
  to its file. `Store.Mounted` says that `disk` holds the data directory under
  its path, and `Ask.AskDataFile` proves that such a file is then read from
  the data directory.
- **Qt signals** become a log of `Signal` values (`Progress`, `Finished`,
  `Done`, `AnswerReady`) that each worker appends to.
- **Passes.** Summarize and Classify share one shape, `Enrichment.Pass`: visit
  the listed files in order, look at the directory as it is at that moment,
  maybe post one request, maybe write one derived file. Each worker's `Run`
  loop is proved equal to that specification. The properties (freshness,
  failure isolation, what is written where, which requests go out) are then
  proved as lemmas about the specification.
- **The code-block regex** ```` ```(?:\w+)?\s*(.*?)``` ```` with `re.DOTALL` is
  a scanner, `Fences`. A backquote is neither a word character nor
  whitespace, so the backtracking matcher's preferred match at an opening
  fence is this: the longest word run, then the longest whitespace run, then
  the body up to the first fence after them. `Fences.MatchAtPreferred`
  proves it. `Fences.ScanIsFindAll` proves that the scanner produces exactly
  the leftmost, non-overlapping matches of `findall`.
- **The status glyphs** are modelled exactly as the source spells them. The
  arrow, tick and cross are stored as mis-decoded UTF-8, for example
  U+00E2 U+0153 U+201C for the tick. `Fetch.OutcomeTextDistinguishes` relies
  on the third character of that spelling.

Some behaviour of the code is easy to misread:

- **Non-200 completion replies.** The code does not treat a non-200 reply
  from the completion endpoint as a failure. A JSON body without `content`
  gives the empty string: Summarize writes an empty summary, and Classify
  files the document under `other`. Only an exception (a timeout, no
  connection, a body that is not JSON) is a `Failed` reply.
- **Skipped documents are silent.** Summarize and Classify emit no progress
  message for a skipped or failed document. Their only signal is the final
  done message.
- **Only `*.txt` files are indexed.** The index holds one row per `*.txt`
  file, not one per file of the directory.
- **Freshness.** A file is fresh when `mtime >= now - 300`, the same as
  `now - mtime <= 300`.

## Model

| member | source | states |
|---|---|---|
| `Names.Sanitize` | llm_bot.py:45 | the stored name has length min(\|url\|, 50); every character is alphanumeric or one of `._-`; character i is the i-th of the last 50 URL characters when safe, `_` otherwise |
| `Names.SanitizeFixedPoint` | llm_bot.py:45 | a name is its own sanitisation exactly when it has at most 50 characters, all safe |
| `Names.SanitizeIdempotent` | llm_bot.py:45 | sanitising twice gives the same name as sanitising once |
| `Names.SavedNameStem` | llm_bot.py:45-47 | a page is saved as a `*.txt` file whose stem is the sanitised URL; an empty URL gives the file `.txt` |
| `Names.SavedName` | llm_bot.py:45-46 | defines the file a page is saved to: the sanitised URL followed by `.txt` |
| `Names.IsTxt` | llm_bot.py:140 | defines what the pattern `*.txt` matches: a name ending in `.txt` |
| `Names.Stem` | llm_bot.py:151 | defines `Path.stem`: the name without the part from its last dot on, unless that dot is the first or the last character |
| `Names.RFind` | llm_bot.py:151 | the index found holds the character and is the last one that does, or -1 when there is none |
| `Names.StemOfTxt` | llm_bot.py:151 | `Path.stem` of a `*.txt` name drops `.txt`, except for the name `.txt` itself |
| `Names.SummaryName` | llm_bot.py:151 | defines `{stem}_summary.txt` |
| `Names.ClassifiedName` | llm_bot.py:181 | defines `{stem}_classified_{category}.txt` |
| `Names.CodeName` | llm_bot.py:200 | defines `{stem}_code.sh` |
| `Names.SummaryNameInjective` | llm_bot.py:151 | distinct stems give distinct summary names |
| `Names.CodeNameInjective` | llm_bot.py:200 | two stems give the same code file name exactly when they are equal |
| `Names.DerivedNamesKinds` | llm_bot.py:151 | summaries and classified copies are `*.txt` files themselves, so later runs see them; `_code.sh` files are not |
| `Text.Lower` | llm_bot.py:39 | `lower()` keeps the length |
| `Text.LowerChars` | llm_bot.py:39 | each character of the result is the lowercased character of the input at the same place |
| `Text.TrimLeft` | llm_bot.py:150 | the result is a suffix of the input, only whitespace was removed, and it does not start with whitespace |
| `Text.TrimRight` | llm_bot.py:150 | the result is a prefix of the input, only whitespace was removed, and it does not end with whitespace |
| `Text.Strip` | llm_bot.py:150 | defines `strip()` as `rstrip()` after `lstrip()` |
| `Text.StripProperties` | llm_bot.py:269 | `strip()` is idempotent and leaves no whitespace at either end |
| `Text.Take` | llm_bot.py:147 | `s[:n]` has length min(\|s\|, n) and is the start of `s` |
| `Text.IntToStringInjective` | llm_bot.py:49 | distinct status codes give distinct `str(status)` |
| `Text.ParseNatToString` | llm_bot.py:49 | reading the decimal digits of `str(n)` back gives `n` |
| `Store.IsFresh` | llm_bot.py:140-145 | defines the freshness test: a file is visited when `mtime >= now - 300`, with `now` read once per run |
| `Store.IsListing` | llm_bot.py:140 | defines what a `glob("*.txt")` at the start of a run yields: every `*.txt` file of the directory, once each, in some order (also lines 169, 196 and 217) |
| `Store.PathOf` | llm_bot.py:219 | defines `str(DATA_ROOT / name)` for the data directory at path `dir` |
| `Store.PathOfInjective` | llm_bot.py:219 | distinct names in one directory have distinct paths |
| `Store.Mounted` | llm_bot.py:265 | defines when the file system `disk`, keyed by full path, holds the data directory under its path |
| `Store.DataRoot.Write` | llm_bot.py:151 | `write_text` creates or replaces exactly one entry, stamped with the given time |
| `Completion.Answer` | llm_bot.py:150 | defines the answer taken from a reply: its `content`, stripped (also lines 179 and 269) |
| `Completion.ErrorText` | llm_bot.py:51 | defines the cross-marked `Error: ` report of an exception (also line 272) |
| `Enrichment.Pass` | llm_bot.py:140-152 | defines a pass: the turns of the listed files in order, each seeing the directory as the earlier turns left it |
| `Enrichment.Posted` | llm_bot.py:140-152 | defines the requests of a pass, in order, each computed from the directory as the earlier turns left it |
| `Enrichment.PassSkip` | llm_bot.py:146-153 | a turn that writes nothing can be dropped from the listing without changing the rest of the pass; only its own request remains |
| `Enrichment.PostedUpTo` | llm_bot.py:140-150 | loop–definition link, no behaviour of its own: the requests of the first i + 1 turns are those of the first i turns followed by the i-th turn's request, computed from the directory as those turns left it |
| `Enrichment.PostedFromStart` | llm_bot.py:140-150 | when no turn writes a listed file, the requests are those computed from the directory at the start of the run, in listing order |
| `Summarize.Prompt` | llm_bot.py:148 | defines the summary prompt: `Summarize concisely:\n`, the excerpt, `\nSummary:` |
| `Summarize.Pass` | llm_bot.py:140-152 | defines the directory after the summary loop: the pass whose turn is `Summarized` |
| `Summarize.Posted` | llm_bot.py:140-152 | defines the requests of the summary loop: the pass's requests, each given by `SummaryRequest` |
| `Summarize.SummaryRequest` | llm_bot.py:143-149 | defines the request of one turn: the summary prompt over the first 4000 characters, `n_predict` 200 and timeout 30, only for a file present and fresh in the directory as it is at that turn |
| `Summarize.Summarized` | llm_bot.py:143-152 | defines the directory after one turn: `{stem}_summary.txt` set to the stripped reply when a request was posted and answered; unchanged otherwise |
| `Summarize.Turn` | llm_bot.py:138-153 | loop–definition link, no behaviour of its own: the pass over the first i + 1 files is the i-th file's turn applied to the pass over the first i, and the requests grow by that turn's request only |
| `Summarize.Visit` | llm_bot.py:139-152 | one loop turn: the directory becomes what `Summarized` specifies for the directory as it is at that moment, and the request returned is the one the file calls for |
| `Summarize.SummarizeWorker.Run` | llm_bot.py:135-153 | a stopped worker does nothing; otherwise the directory ends as the pass specifies, the requests posted are those of the pass, and exactly one "Summaries saved" message is emitted |
| `Summarize.SummarizeWorker.Stop` | llm_bot.py:154-155 | clears the running flag and emits nothing |
| `Summarize.FailureIsolated` | llm_bot.py:146-153 | a failed request for file i leaves the directory as if file i were not listed; later files are treated exactly as without it |
| `Summarize.OnlySummariesWritten` | llm_bot.py:151 | a file that no turn summarises into keeps its entry |
| `Summarize.StaleSkipped` | llm_bot.py:138-145 | a file with mtime < now - 300, which no earlier turn wrote a summary over, gets no request and no write; the pass is the pass without it |
| `Summarize.KeptOrStamped` | llm_bot.py:151 | a pass removes no file, and an entry it changes carries the run's write stamp |
| `Summarize.FreshSummarized` | llm_bot.py:138-151 | a file fresh at the start whose request succeeds, and whose stem no later listed file shares, ends with `{stem}_summary.txt` holding the stripped reply; this needs either that no earlier turn wrote a summary over it or that the run's write stamp is itself fresh |
| `Summarize.RequestsForFreshFiles` | llm_bot.py:138-150 | when no listed file is the summary name of a listed file: exactly one request per file fresh at the start, in listing order, with the prompt `Summarize concisely:\n` + first 4000 characters + `\nSummary:`, `n_predict` 200 and timeout 30 |
| `Summarize.SummarizeOnlyRecent` | llm_bot.py:138-151 | of a file 10 s old and one 400 s old, only the first is summarised |
| `Summarize.ExampleStrings` | llm_bot.py:150-151 | `new.txt` is summarised into `new_summary.txt`, and the reply ` A ` is saved as `A` |
| `Classify.Category` | llm_bot.py:179-180 | defines the category: the stripped, lowercased reply when it is one of the three categories, `other` otherwise |
| `Classify.Prompt` | llm_bot.py:177 | defines the classification prompt over an excerpt |
| `Classify.PromptText` | llm_bot.py:177 | the classification prompt is `Classify into one of: security, networking, crypto. Text: `, the excerpt, then `\nCategory:` |
| `Classify.CategoriesText` | llm_bot.py:171-177 | the three categories joined by `, ` read `security, networking, crypto` |
| `Classify.CategoryIsClosed` | llm_bot.py:179-180 | the category is one of `security`, `networking`, `crypto`, `other`, and is the stripped, lowercased reply exactly when that is one of them |
| `Classify.CategoryIsCanonical` | llm_bot.py:179-180 | the category names are already stripped and lowercase |
| `Classify.CategoryIdempotent` | llm_bot.py:179-180 | filing a category name files it under itself |
| `Classify.ClassifyRequest` | llm_bot.py:171-178 | defines the request of one turn: the classification prompt over the first 2000 characters, `n_predict` 10 and timeout 20, only for a file present and fresh at that turn |
| `Classify.Classified` | llm_bot.py:171-182 | defines the directory after one turn: `{stem}_classified_{category}.txt` set to the first 2000 characters when a request was posted and answered; unchanged otherwise |
| `Classify.Pass` | llm_bot.py:169-182 | defines the directory after the classification loop: the pass whose turn is `Classified` |
| `Classify.Posted` | llm_bot.py:169-182 | defines the requests of the classification loop: the pass's requests, each given by `ClassifyRequest` |
| `Classify.Turn` | llm_bot.py:166-183 | loop–definition link, no behaviour of its own: the pass over the first i + 1 files is the i-th file's turn applied to the pass over the first i, and the requests grow by that turn's request only |
| `Classify.Visit` | llm_bot.py:167-182 | one loop turn: the directory becomes what `Classified` specifies for the directory as it is at that moment, and the request returned is the one the file calls for |
| `Classify.ClassifyWorker.Run` | llm_bot.py:163-183 | a stopped worker does nothing; otherwise the directory ends as the pass specifies, the requests posted are those of the pass, and exactly one "Files classified" message is emitted |
| `Classify.ClassifyWorker.Stop` | llm_bot.py:184-185 | clears the running flag and emits nothing |
| `Classify.FailureIsolated` | llm_bot.py:175-183 | a failed request for file i leaves the directory as if file i were not listed |
| `Classify.OnlyClassifiedWritten` | llm_bot.py:181 | a file that no turn classifies into keeps its entry |
| `Classify.StaleSkipped` | llm_bot.py:166-174 | a file with mtime < now - 300, which no earlier turn wrote a classified copy over, gets no request and no write |
| `Classify.FreshClassified` | llm_bot.py:175-181 | a file fresh at the start whose request succeeds, over which no earlier turn may write a classified copy, and whose classified name no later turn may write, ends with `{stem}_classified_{category}.txt` holding exactly its first 2000 characters |
| `Classify.RequestsForFreshFiles` | llm_bot.py:166-178 | when no turn may write a classified copy over a listed file: exactly one request per file fresh at the start, in listing order, with the first 2000 characters, `n_predict` 10 and timeout 20 |
| `Fences.FenceAtOccurs` | llm_bot.py:195 | a fence is three backquotes: the character test agrees with an occurrence of the string ```` ``` ```` |
| `Fences.SkipWordMaximal` | llm_bot.py:195 | `(?:\w+)?` greedy: everything skipped is a word character and the next character is not |
| `Fences.SkipSpaceMaximal` | llm_bot.py:195 | `\s*` greedy: everything skipped is whitespace and the next character is not |
| `Fences.FindFence` | llm_bot.py:195 | the lazy body ends at a fence at or after the position searched from |
| `Fences.FindFenceFirst` | llm_bot.py:195 | the fence found is the first one from the position on, and when none is found there is no fence from there on |
| `Fences.MatchAt` | llm_bot.py:195 | a match starts with a fence at its position, its body lies after the opening fence, and it ends with a fence |
| `Fences.MatchAtExists` | llm_bot.py:195 | the pattern succeeds at p exactly when a fence starts at p and another starts at p + 3 or later |
| `Fences.MatchAtPreferred` | llm_bot.py:195 | the match taken is the backtracking matcher's first choice (longest word, then longest whitespace, then nearest closing fence), and its body holds no fence |
| `Fences.ScanIsFindAll` | llm_bot.py:195-198 | the scanner returns exactly `findall`'s matches: each is the pattern's match at the first position after the previous match where it succeeds, and nothing succeeds after the last |
| `Fences.Scan` | llm_bot.py:195-198 | defines the scanner: try the pattern at each position from the left, and after a match resume just past its closing fence |
| `Fences.Snippets` | llm_bot.py:198 | defines `findall`'s result: the bodies of the scanner's matches, in order |
| `Fences.CodeFile` | llm_bot.py:201 | defines the code file's text: the snippets joined with blank lines |
| `Fences.SnippetsExist` | llm_bot.py:198-199 | `snippets` is non-empty exactly when an opening fence is followed, three or more characters later, by a closing one |
| `Fences.ExampleTaggedBlock` | llm_bot.py:195-198 | the language tag and the whitespace after it are not part of the snippet |
| `Extract.HasCode` | llm_bot.py:198-199 | defines the files that get a code file: present, with at least one snippet |
| `Extract.Extracted` | llm_bot.py:196-201 | defines the directory after the turns of a listing: each file with snippets, read from the directory at the start, sets its `{stem}_code.sh` |
| `Extract.ExtractedUpTo` | llm_bot.py:196-201 | loop–definition link, no behaviour of its own: the directory after the first i + 1 files is file i's turn applied to the directory after the first i: one code-file write when it has snippets, nothing otherwise |
| `Extract.Visit` | llm_bot.py:197-201 | one loop turn: the code file is written with the joined snippets exactly when the file has snippets, and nothing else changes |
| `Extract.ExtractCodeWorker.Run` | llm_bot.py:192-202 | a stopped worker does nothing; otherwise the directory ends as `Extracted` specifies and one "Code snippets extracted" message is emitted |
| `Extract.ExtractCodeWorker.Stop` | llm_bot.py:203-204 | clears the running flag and emits nothing |
| `Extract.ExtractedKeepsText` | llm_bot.py:196-201 | no `*.txt` file changes, so every file is read as it was at the start |
| `Extract.ExtractedKeeps` | llm_bot.py:199-201 | only the code files of files with snippets are written |
| `Extract.ExtractedSkipsFilesWithoutCode` | llm_bot.py:199 | a file without snippets leaves the directory unchanged |
| `Extract.ExtractedWrites` | llm_bot.py:198-201 | a file with snippets, whose stem no later listed file shares, ends with `{stem}_code.sh` holding exactly its snippets joined by blank lines |
| `SearchIndex.Table.CreateIfAbsent` | llm_bot.py:215 | creates an empty table only when there is none |
| `SearchIndex.Table.DeleteAll` | llm_bot.py:216 | the table ends empty |
| `SearchIndex.Table.Insert` | llm_bot.py:219 | appends exactly one row |
| `SearchIndex.Rows` | llm_bot.py:217-219 | one row per listed file, in order, holding its path and content |
| `SearchIndex.IndexWorker.Run` | llm_bot.py:211-222 | a stopped worker does nothing; otherwise the table ends holding exactly the rows of the listing, whatever it held before, and one "Searchable index built" message is emitted |
| `SearchIndex.IndexWorker.Stop` | llm_bot.py:223-224 | clears the running flag and emits nothing |
| `SearchIndex.RowsOfListing` | llm_bot.py:214-220 | after a rebuild, no two rows share a path, and a row is present exactly when it is the path and content of a `*.txt` file |
| `SearchIndex.RowsMembers` | llm_bot.py:217-219 | a row is in a rebuild exactly when it is the path and content of a `*.txt` file |
| `SearchIndex.RowsDistinct` | llm_bot.py:217-219 | no row of a rebuild occurs twice |
| `SearchIndex.RowsIgnoreOrder` | llm_bot.py:217-219 | two listings of the same directory give the same rows up to order |
| `SearchIndex.DistinctMultiset` | llm_bot.py:217-219 | two duplicate-free sequences with the same elements are permutations of each other |
| `Fetch.FetchingText` | llm_bot.py:35 | defines the "Fetching" message, marked with the arrow |
| `Fetch.IsPlain` | llm_bot.py:39-40 | defines when a page is saved raw: its lowercased content type contains `text/plain` or its URL ends in `.txt` |
| `Fetch.PageText` | llm_bot.py:40-44 | defines the saved text: the body when the page is plain, the HTML-to-text step of it otherwise |
| `Fetch.OutcomeText` | llm_bot.py:47-51 | defines the outcome message: the tick and the saved name for 200, the cross and the status otherwise, the error report for an exception |
| `Fetch.Fetched` | llm_bot.py:37-51 | defines the directory after one attempt: a 200 response writes the sanitised name, raw or through the HTML-to-text step; anything else writes nothing |
| `Fetch.FetchAll` | llm_bot.py:32-52 | defines the directory after attempting a list of URLs in order |
| `Fetch.Log` | llm_bot.py:35-51 | defines the messages of attempting a list of URLs: per URL, "Fetching" and then its outcome message |
| `Fetch.PlainIgnoresCase` | llm_bot.py:39-40 | the test on the content type does not depend on its case |
| `Fetch.OutcomeTextDistinguishes` | llm_bot.py:47-51 | the outcome message shows the tick exactly for a 200 response, and failing statuses give distinct messages |
| `Fetch.LogShape` | llm_bot.py:32-51 | each attempted URL, in list order, emits "Fetching" followed by exactly one outcome message |
| `Fetch.LogPrefix` | llm_bot.py:32-34 | a run stopped early emits the start of the full run's log |
| `Fetch.OnlySavedPagesWritten` | llm_bot.py:38-49 | only a 200 response writes, and only the file of its own URL |
| `Fetch.SavedPage` | llm_bot.py:38-47 | a 200 page, whose saved name no later 200 response of the run shares, is saved under its sanitised name, raw when its content type contains `text/plain` or its URL ends in `.txt`, through the HTML-to-text step otherwise |
| `Fetch.Attempted` | llm_bot.py:32-34 | a run stopped before it starts attempts nothing; otherwise exactly the URLs before the one whose check sees the stop are attempted, all of them when the stop comes after the last |
| `Fetch.AttemptUpTo` | llm_bot.py:32-52 | loop–definition link, no behaviour of its own: fetching the first i + 1 URLs is fetching the first i and then URL i, and the log grows by URL i's two messages |
| `Fetch.WebWorker.Attempt` | llm_bot.py:35-51 | one attempt: the directory becomes what `Fetched` specifies, the "Fetching" message and one outcome message are emitted, and the running flag is untouched |
| `Fetch.WebWorker.Run` | llm_bot.py:31-53 | exactly the first `Attempted` URLs are fetched, the directory and the log are those of fetching them in order, `finished` is emitted once at the end, and the stop flag is kept |
| `Fetch.WebWorker.Stop` | llm_bot.py:54-55 | clears the running flag |
| `Ask.AskRequest` | llm_bot.py:265-268 | defines the request: the prompt over the first 2000 characters of the file at the path, `n_predict` 400, no timeout; none when nothing can be read at the path |
| `Ask.AnswerText` | llm_bot.py:264-272 | defines the one message of a run: the stripped reply, or the error report for a missing file or a failed request |
| `Ask.Prompt` | llm_bot.py:266 | defines the question prompt: `Context:\n`, the excerpt, `\n\nQuestion: `, the question, `\nAnswer:` |
| `Ask.NoSuchFile` | llm_bot.py:265 | defines the error text of reading a missing path, `[Errno 2] No such file or directory: 'path'` |
| `Ask.PromptLayout` | llm_bot.py:266 | the prompt is `Context:\n`, the excerpt, `\n\nQuestion: `, the question, `\nAnswer:`, each at its fixed offset |
| `Ask.AnswerKinds` | llm_bot.py:264-272 | a successful run emits the stripped reply; a missing file or a failed request emits the cross-marked `Error: ` report |
| `Ask.AskDataFile` | llm_bot.py:265-272 | a data-directory file given by its full path, as the file list gives it, is read from the data directory; its first 2000 characters are sent, and the answer is the stripped reply or the request's error |
| `Ask.AskWorker.SetQuery` | llm_bot.py:256-259 | stores the file and question and arms the worker |
| `Ask.AskWorker.Run` | llm_bot.py:261-272 | with no query set nothing happens; otherwise the file is looked up by its full path in the file system, the request holds its first 2000 characters and `n_predict` 400, with no timeout, and exactly one answer message is emitted |

## Left out

- PresetWorker, CheatSheetWorker and the preset fetchers (`fetch_gutenberg`, `fetch_rfcs`, `fetch_manpages`, `fetch_gpg`, `fetch_all_coding_man`). They are URL lists and subprocess calls to man pages and `--help`.
- The window (`LLMBotGUI`) and `main`, including the input checks in `add_url` and `send_ask_query`. `closeEvent` calls `stop()` and `wait(2000)` on every stored `worker_*` thread and on `self.worker`, running or not, and on `ask_worker` only when it is running. `AskLLMWorker` has no `stop` method, so closing the window while it runs would raise; that shutdown path is not modelled.
- Threads, signal delivery and the one-second `time.sleep` between fetches. A concurrent `stop()` during a fetch run is the input `stopAt`: the iteration before whose check the flag is seen cleared.
- The HTTP client and BeautifulSoup. Outcomes of `requests.get` and the endpoint's replies are inputs, and HTML-to-text is an uninterpreted function.
- sqlite internals: FTS5 tokenisation, `commit` and `close`. The table is a sequence of rows. The database file `index.db` lives in the data directory, but it is not part of the modelled store. It is not a `*.txt` file, so no modelled worker reads it.
- File encodings and `errors="ignore"` decoding. Contents are already strings.
- Directories matching `*.txt` (the `is_file` test) and read or write failures. The directory holds only regular files and writes always succeed. The `mtime` written files get is the input `t`, not a clock.
- Whether `glob` lists files written during the same run. The model uses the listing taken at the start.
- Time is whole seconds. `time.time()` and `st_mtime` are floats in the code; the model takes `now`, `mtime` and the write stamp `t` as integers, so a file 300.4 s old, which the code skips, has no exact counterpart.
- Unicode character classes. `isalnum`, `\w`, `\s`, `isspace` and `lower` are their ASCII versions.
- Fetch.WebWorker.Run: the worker iterates the window's own `urls` list, which it shares rather than copies. So a URL that `add_url` appends during a run is fetched by that same run, and the `finished` handler then empties the list. The model takes the list as fixed when the worker is constructed (`const urls`).
- Fetch.WebWorker.Run: an exception raised while saving a page (a write or HTML-parsing failure) is not modelled; only `requests.get` can raise.
- Ask.NoSuchFile: the path in the error message is written with plain single quotes, not with Python's `repr` escaping.
- Summarize.FreshSummarized, Classify.FreshClassified and Extract.ExtractedWrites assume that no later file of the same run writes the same derived name. Two listed names can share a stem (`.txt` and `.txt.txt` both have stem `.txt`); then the later write wins, which the pass itself models.
- Summarize.FreshSummarized, Summarize.RequestsForFreshFiles, Classify.FreshClassified and Classify.RequestsForFreshFiles: the case where a turn writes over a file listed later (a run within five minutes of one that saved `a_summary.txt`, with `a.txt` listed first) is covered only turn by turn, by `Turn` and the pass itself. FreshSummarized also covers it when the write stamp is fresh; the other three carry the hypothesis that no such write happens.
- Fetch.SavedPage assumes that no later 200 response of the run is saved under the same name. Two URLs with the same last 50 characters after sanitising share a file; then the later page wins, which `FetchAll` itself models.
