# Help-centre scraper and vector-store uploader, modelled in Dafny

The repository is a two-stage script.

1. `scrape.py` fetches help-centre articles and saves each one as a markdown file. The file is named `slugify(title) + ".md"`. The script also keeps `url_mapping`, a dictionary from markdown file names to article URLs.
2. `upload.py` keeps an OpenAI vector store in step with those articles. The `Uploader` lists the store's files into a mapping `file_name -> {file_id, hash}`. Then, article by article, it does one of three things:
   - skips the article when its name is listed with the same MD5 hash;
   - replaces the file when the hash differs (the old file is detached and deleted first, then the new one is created and attached);
   - adds the file when its name is new.

   Each article is counted under exactly one of `added_count`, `updated_count` and `skipped_count`. The uploader also estimates how many token windows (`count_chunks`) a text needs.

The project has four modules:

- `Scrape` (`scrape.dfy`):
  - `slugify` as three string functions: lower-casing, run substitution and stripping of `-`;
  - the shape, content, emptiness and idempotence of its output;
  - a `Scraper` class whose `urlMapping` field is updated in place by `SaveArticle` and `Run`.
- `Chunking` (`chunking.dfy`): the closed form of the window count, and what the windows cover.
- `RemoteIndex` (`remote_index.dfy`):
  - listing pages, and the fold `get_existing_files` performs over them;
  - a `RemoteStore` class standing in for the API client. It holds the uploaded files, the vector store's attached files with their attributes, a counter for fresh ids, and a ghost log of every mutating call in order.
- `Upload` (`upload.dfy`): the `Uploader` class with its three counters, and its methods:
  - `GetExistingFiles`: the `while True` loop over pages;
  - `CountChunks`: the `while` loop;
  - `UploadFile`;
  - `Run`.

Each method is proved against a specification function (`Collect`, `ChunkEstimate`, `Classify`, `Targets`, `Recorded`). Lemmas beside those functions state what the source promises.

`compute_hash` is a constant function `string -> Md5Hex` held by the uploader. It is deterministic and has no further properties; `Md5Hex` is a string of 32 characters, as an MD5 hex digest is.

The model works on whole files and never deletes stale entries, as the code does.

## Model

| member | source | states |
|---|---|---|
| Scrape.Lower | scrape.py:12 | `str.lower()` on one ASCII character: an upper-case letter becomes the lower-case letter at the same place in the alphabet, every other character is unchanged; so the result is in `[a-z0-9]` exactly when the input is in `[a-z0-9]` or is an upper-case letter |
| Scrape.LowerAll | scrape.py:12 | `title.lower()` keeps the length and lowers each character in place |
| Scrape.DropRun | scrape.py:12 | dropping the run of characters outside `[a-z0-9]` at the front leaves a suffix that is empty or starts with `[a-z0-9]` |
| Scrape.DropRunDropsNonSlug | scrape.py:12 | every character that run drops is outside `[a-z0-9]`, so the `[a-z0-9]` characters are kept |
| Scrape.SubstituteShape | scrape.py:12 | `re.sub(r"[^a-z0-9]+", "-", s)` yields only `[a-z0-9-]`, never `--`, and a leading `[a-z0-9]` character is the input's first |
| Scrape.SubstituteKeepsSlugChars | scrape.py:12 | the substitution keeps the `[a-z0-9]` characters of its input, in order, and adds none |
| Scrape.TakeRun | scrape.py:12 | the longest prefix of `[a-z0-9]` characters: a prefix, all in `[a-z0-9]`, followed by a character outside `[a-z0-9]` or by the end |
| Scrape.Words | scrape.py:12 | the maximal `[a-z0-9]` runs of a string, each a non-empty run of `[a-z0-9]` characters |
| Scrape.JoinDashEdges | scrape.py:12 | words joined by `-` are empty exactly when there are no words, and otherwise start and end with `[a-z0-9]` |
| Scrape.WordsSkipRun | scrape.py:12 | a leading run outside `[a-z0-9]` holds no word |
| Scrape.NoWordsNoSlugChars | scrape.py:12 | a string without words has no `[a-z0-9]` character |
| Scrape.SubstituteRun | scrape.py:12 | the substitution copies a leading run of `[a-z0-9]` characters unchanged and goes on after it |
| Scrape.SubstituteSeparates | scrape.py:12 | the substitution's output is the words of its input joined by single `-`, with one more `-` in front when the input starts outside `[a-z0-9]` and one more after the last word when a run outside `[a-z0-9]` follows it |
| Scrape.SeparatesAfterRun | scrape.py:12 | the same, for an input that starts outside `[a-z0-9]` |
| Scrape.SeparatesAfterWord | scrape.py:12 | the same, for an input that starts with a word |
| Scrape.StripStartPad | scrape.py:12 | `lstrip("-")` removes one `-` put in front of a string that does not start with `-` |
| Scrape.StripEndPad | scrape.py:12 | `rstrip("-")` removes one `-` put after a string that does not end with `-` |
| Scrape.StripPadded | scrape.py:12 | `strip("-")` of words joined by `-`, with at most one `-` added at each end, gives the joined words back |
| Scrape.SlugifyJoinsWords | scrape.py:11-12 | `slugify(t)` is the maximal `[a-z0-9]` runs of `t.lower()` joined by single `-`: runs that were separated stay separated by exactly one `-` |
| Scrape.StripStart | scrape.py:12 | `lstrip("-")` returns a suffix of its input that does not start with `-` |
| Scrape.StripEnd | scrape.py:12 | `rstrip("-")` returns a prefix of its input that does not end with `-` |
| Scrape.StripStartDropsDashes | scrape.py:12 | every character `lstrip("-")` removes is `-` |
| Scrape.StripEndDropsDashes | scrape.py:12 | every character `rstrip("-")` removes is `-` |
| Scrape.StripStartKeepsSlugChars | scrape.py:12 | `lstrip("-")` keeps every `[a-z0-9]` character |
| Scrape.StripEndKeepsSlugChars | scrape.py:12 | `rstrip("-")` keeps every `[a-z0-9]` character |
| Scrape.StripKeepsSlugChars | scrape.py:12 | `strip("-")` keeps every `[a-z0-9]` character, in order |
| Scrape.StripMakesSlug | scrape.py:12 | stripping a `[a-z0-9-]` string without `--` gives a slug: no `-` at either end, still no `--` |
| Scrape.Slugify | scrape.py:11-12 | no contract of its own: `slugify` as `Strip(Substitute(LowerAll(title)))`; its meaning is stated by `SlugifyJoinsWords`, `SlugifyIsSlug`, `SlugifyKeepsSlugChars`, `SlugifyEmpty` and `SlugifyIdempotent` |
| Scrape.Substitute | scrape.py:12 | no contract of its own: `re.sub(r"[^a-z0-9]+", "-", s)`; its meaning is stated by `SubstituteSeparates`, `SubstituteShape`, `SubstituteKeepsSlugChars` and `SubstituteFixesSlug` |
| Scrape.Strip | scrape.py:12 | no contract of its own: `strip("-")` as `StripEnd(StripStart(s))`; its meaning is stated by `StripStart`, `StripEnd`, `StripKeepsSlugChars`, `StripMakesSlug` and `StripPadded` |
| Scrape.MarkdownName | scrape.py:62-67 | no contract of its own: the key `f"{slug}.md"`; what it does to the mapping is stated by `Scraper.SaveArticle`, `SavedKeys` and `SavedLastWins` |
| Scrape.SlugifyIsSlug | scrape.py:11-12 | every output character of `slugify` is in `[a-z0-9-]`, the output has no `--` and does not start or end with `-` |
| Scrape.SlugifyKeepsSlugChars | scrape.py:11-12 | the `[a-z0-9]` characters of `slugify(t)` are exactly those of `t.lower()`, in their order |
| Scrape.SlugifyEmpty | scrape.py:11-12 | `slugify(t)` is empty if and only if `t.lower()` has no `[a-z0-9]` character |
| Scrape.SlugIsFixedPoint | scrape.py:11-12 | a string that already has the shape of a slug is its own slug |
| Scrape.SubstituteFixesSlug | scrape.py:12 | the substitution leaves a `[a-z0-9-]` string without `--` unchanged |
| Scrape.DashBeforeSlugChar | scrape.py:12 | in such a string a leading character outside `[a-z0-9]` is a single `-`, a run of its own |
| Scrape.SlugifyIdempotent | scrape.py:11-12 | `slugify(slugify(t)) == slugify(t)` |
| Scrape.Scraper.constructor | scrape.py:27-31 | the mapping starts as the loaded `url_mapping.json`, or empty when that file is missing |
| Scrape.Scraper.SaveArticle | scrape.py:61-67 | `url_mapping[slug + ".md"]` becomes the article's `html_url`, and every other key keeps its presence and value |
| Scrape.Scraper.Run | scrape.py:72-75 | saving the articles in order leaves the mapping equal to the fold `Recorded` of their writes over the loaded mapping |
| Scrape.SavesStep | scrape.py:74-75 | proof step: unfolds the definition at one more element; one more saved article appends exactly its own write |
| Scrape.SavesLength | scrape.py:74-75 | each article makes one write |
| Scrape.SavesAt | scrape.py:74-75 | the `i`-th write is the `i`-th article's markdown name and URL |
| Scrape.RecordedStep | scrape.py:67 | proof step: unfolds the definition at one more element; one more write updates the mapping under that write's key |
| Scrape.RecordedKeys | scrape.py:67 | after the writes, a key is present if and only if it was loaded or some write was under it |
| Scrape.RecordedKeepsOthers | scrape.py:67 | a key no write was under keeps its loaded value |
| Scrape.RecordedLastWins | scrape.py:67 | a key maps to the URL of the last write under it |
| Scrape.SavedUnderArticles | scrape.py:61-67 | a write is under a key if and only if some article's title gives that key |
| Scrape.SavedKeys | scrape.py:72-75 | after `run`, a key is in `url_mapping` if and only if it was loaded or is the markdown name of some article |
| Scrape.SavedLastWins | scrape.py:72-75 | after `run`, an article's markdown name maps to the URL of the last article with that name |
| Chunking.Stride | upload.py:66 | the step `chunk_size - overlap` is positive whenever `overlap < chunk_size` |
| Chunking.ChunkEstimateZero | upload.py:58-68 | the count is 0 if and only if there are no tokens |
| Chunking.FirstWindowReachingEnd | upload.py:61-65 | with `0 <= overlap`, window `ceil(max(0, n - chunk_size) / stride)` starts before `n` and reaches it |
| Chunking.ChunkEstimateClosedForm | upload.py:58-68 | with `0 <= overlap` and `n > 0` the count is `1 + ceil(max(0, n - chunk_size) / (chunk_size - overlap))` |
| Chunking.LastWindowEndsAtEnd | upload.py:62-65 | with `0 <= overlap` and `n > 0` the last counted window starts before `n` and ends exactly at `n` |
| Chunking.WindowContaining | upload.py:61-66 | with `0 <= overlap` every token lies in some counted window: the windows leave no gap |
| Chunking.WindowOfToken | upload.py:61-66 | token `t` lies in window `t / stride` |
| Chunking.LastWindowHoldsTail | upload.py:61-66 | a token past the last window's start lies in the last window |
| Chunking.ConsecutiveWindowsTouch | upload.py:61-66 | each counted window starts no later than the previous one ends |
| Chunking.DefaultWindowExamples | upload.py:52-53 | with the defaults 800/400, 800 tokens give 1 window and 1000 tokens give 2 |
| RemoteIndex.Record | upload.py:31-38 | no contract of its own: the loop body of `get_existing_files` on one listed file; its meaning is stated by `CollectKeys`, `CollectLastWins` and `CollectHashesTruthy` |
| RemoteIndex.CollectStep | upload.py:31-38 | proof step: unfolds the definition at one more element; folding one more entry of a page applies the loop body to it |
| RemoteIndex.FlattenStep | upload.py:30-44 | proof step: unfolds the definition at one more element; a page read in full extends the entries read so far by that page |
| RemoteIndex.CollectKeys | upload.py:31-38 | a name is in the mapping if and only if some listed entry has a truthy `hash` and that truthy `file_name` |
| RemoteIndex.CollectLastWins | upload.py:35-38 | for a name listed several times, the last such entry's id and hash win |
| RemoteIndex.CollectHashesTruthy | upload.py:32-34 | every hash kept in the mapping is non-empty |
| RemoteIndex.ListingMirrors | upload.py:25-46 | the mapping built from a listing of the store names, for each name, a file attached under that name with that hash |
| RemoteIndex.RemoteStore.constructor | upload.py:14 | a client of an account that already holds some files, some of them attached to the vector store, has made no call yet; the ids it hands out start above every id in use |
| RemoteIndex.RemoteStore.DetachFile | upload.py:84-86 | `vector_stores.files.delete` removes the id from the vector store, changes nothing else, and is logged |
| RemoteIndex.RemoteStore.DeleteFile | upload.py:87 | `files.delete` removes the uploaded file, changes nothing else, and is logged |
| RemoteIndex.RemoteStore.CreateFile | upload.py:93-96 | `files.create` stores the content under an id never used before, and is logged |
| RemoteIndex.RemoteStore.AttachFile | upload.py:98-106 | `vector_stores.files.create` attaches an uploaded file with the given attributes, and is logged |
| Upload.Classify | upload.py:77-90 | the article is skipped if and only if its name is listed with the same hash, updated (with the listed id) if and only if listed with another hash, and added if and only if its name is new |
| Upload.FileName | upload.py:72 | no contract of its own: `f"{slug}.md"`; `UploadFile`, `Targets` and `Classify` use it as the name an article is uploaded under |
| Upload.Retire | upload.py:84-87 | an update removes exactly the old file id and keeps every other entry; an add or a skip removes nothing |
| Upload.TargetsKeys | upload.py:114-115 | a file name is targeted by the articles if and only if some article has it |
| Upload.TargetsLastWins | upload.py:107 | a name's target hash is that of the last article with that name |
| Upload.TargetsStep | upload.py:114-115 | proof step: unfolds the definition at one more element; one more article sets its own name to its own hash |
| Upload.ReprocessingSkips | upload.py:77-82 | against a mapping that has reached the targets, the article that is the last under its name is a skip |
| Upload.Hashes | upload.py:107 | the names known once the targets are reached are the listed names and the targeted ones |
| Upload.CountTotal | upload.py:77-90 | every article is counted exactly once: the three counts add up to the number of articles |
| Upload.CountStep | upload.py:114-115 | proof step: unfolds the definition at one more element; one more article moves the counter that its name and hash pick against what is known so far |
| Upload.SettledClassifies | upload.py:77-90 | a mapping that has settled the articles so far classifies the next article the way the known hashes do |
| Upload.CountersStep | upload.py:77-90 | after one upload the counters still equal the starting counters plus the articles counted |
| Upload.RerunSkipsAll | upload.py:77-82 | over a listing that already holds every article's hash, with no two articles under one name, every article is a skip: nothing is added or updated |
| Upload.RerunSkipsNext | upload.py:77-82 | in such a run, each article is a skip against the listing overlaid with the articles before it |
| Upload.ReplacedIds | upload.py:80-87 | a listed file id is replaced exactly when some article carries a name listed under it with a different hash |
| Upload.ReplacedStep | upload.py:114-115 | proof step: unfolds the definition at one more element; one more article adds the listed id it replaces, if any |
| Upload.OriginStep | upload.py:77-107 | after one upload each entry of the mapping is still the listed one or points at a file created during the run, and a listed entry is gone only once its file is replaced |
| Upload.RetiredStep | upload.py:84-87 | the file an upload retires is a listed file the article replaces or one created during the run |
| Upload.KeptStep | upload.py:84-107 | after one upload every file that was there before the run is still there unchanged unless replaced, and the replaced ones stay gone |
| Upload.TalliedStep | upload.py:114-115 | one more upload keeps the counters equal to the starting ones plus `Count`, keeps the mapping settled, and keeps the store untouched while nothing was added or updated |
| Upload.FramedStep | upload.py:114-115 | one more upload keeps the files of the starting store that were not replaced, and keeps the replaced ones gone |
| Upload.SettledStep | upload.py:114-115 | bringing one more article up to date keeps the names already reached and leaves every other name as listed |
| Upload.MirrorsAfterUpload | upload.py:84-107 | after an update or an add, the mapping still names, for each name, a file attached under that name with that hash |
| Upload.ExistingFiles.constructor | upload.py:111 | the dictionary `run` passes to `upload_file` starts as the listing's mapping |
| Upload.Uploader.constructor | upload.py:16-18 | the three counters start at 0 |
| Upload.Uploader.GetExistingFiles | upload.py:25-46 | reads pages until one has `has_more` false; the result is the fold of every entry of every page, in order; fails exactly when a page claims more yet holds no entry, because `files.data[-1]` then raises `IndexError` |
| Upload.Uploader.CountChunks | upload.py:58-68 | the loop ends whenever the stride is positive or the first window already reaches the end; it then returns `ChunkEstimate` (or 1 for a non-empty text when the stride is not positive); the result is 0 if and only if there are no tokens; the last counted window starts before the end |
| Upload.Uploader.UploadFile | upload.py:70-107 | exactly one counter rises, as `Classify` decides. A skip changes neither the mapping nor the store. Otherwise the call log is the old file's detach and delete (update only), then a create under a fresh id, then an attach with `hash`, `file_name` and `url`; the files and the vector store change by exactly that. Afterwards the name maps to the new id and hash, the same article again is a skip, other names are unchanged, and a mapping that described the store still does. The new id is at or above the id counter |
| Upload.NamedStep | upload.py:84-107 | after one upload every file created or attached since the run began is still one the mapping points at: the new file is, and a file the name pointed at before was retired |
| Upload.AccountedStep | upload.py:84-107 | one more upload keeps every new file and attachment named by the mapping, adds no call to the log before it, and makes two calls for an add and four for an update |
| Upload.UploadEffect | upload.py:70-107 | no contract of its own: what `upload_file` does to the mapping, the files, the attached files and the call log when `files.create` hands out a given id; `Uploader.UploadFile`, `EffectShows` and `BackedStep` state its meaning |
| Upload.Replay | upload.py:114-115 | no contract of its own: `upload_file` applied to every article in order, article `i` receiving the `i`-th id; `Uploader.UploadAll`, `Uploader.Run` and `ReplayBacked` state its meaning |
| Upload.ReplayStep | upload.py:114-115 | proof step: unfolds the definition at one more element; replaying one article more is one more `UploadEffect` |
| Upload.EffectShows | upload.py:70-107 | one upload changes the mapping, the files, the attached files and the call log exactly as `UploadEffect` does with the id the name now maps to; that id, if created, lies between the id counter before and after |
| Upload.CreatedStep | upload.py:93-95 | appending one id handed out above every id in use keeps the created ids strictly increasing and inside the range handed out since the run began |
| Upload.ReplaysStep | upload.py:114-115 | after one more upload the mapping and the store are still the replay of the articles done so far, with fresh, increasing ids |
| Upload.ProgressStep | upload.py:114-115 | one more upload keeps the whole loop invariant of `run`: counters, settled mapping, kept files, named new files and the exact replay |
| Upload.ProgressDone | upload.py:114-115 | once every article is done, the loop invariant gives the counters, the settled mapping, the kept files, the call log and the exact replayed state |
| Upload.IncreasingPrefix | upload.py:93-95 | a prefix of strictly increasing ids at or above the counter's start is increasing, and lies below the id appended after it |
| Upload.BackedPut | upload.py:84-107 | pointing a name at a newly created file uploaded under that name and attached under that name and hash, after retiring the old file, keeps every entry created during the run pointing at its own file, stored under its name and attached under its name and hash |
| Upload.BackedStep | upload.py:70-107 | one `upload_file` with a fresh id keeps that property |
| Upload.ReplayBacked | upload.py:84-115 | after `run`'s loop, starting from a listing whose ids are all older than the run, every entry whose id was handed out during the run points at a file created during the run, uploaded under the entry's name and attached with that name and its hash, and no two names share such a file |
| Upload.Uploader.UploadAll | upload.py:114-115 | the loop of `run`: each counter rises by the articles `Count` puts under it; the mapping settles the articles; every file of the store before the loop stays as it was unless it is a listed file the articles replace, and those are gone from both the files and the vector store; every file created or attached during the loop is one the final mapping points at; the call log before the loop is kept, followed by two calls per article added and four per article updated; the id counter never goes down; when nothing is added or updated, the mapping, the files, the vector store and the call log are unchanged. Exactly: the final mapping, files, attached files and call log are the `Replay` of the articles from the starting ones, with ids handed out during the loop, strictly increasing |
| Upload.Uploader.Run | upload.py:110-115 | fails before any upload exactly when the listing fails, and then changes nothing, not even the id counter. Otherwise each counter rises by the articles `Count` puts under it, and the counters by the number of articles in total; every article's name carries the hash of the last article with that name, every other name is as listed; the files and attached files from before the run stay as they were except the listed files the articles replace, which are gone; every file created or attached during the run is one the final mapping points at; the call log before the run is kept, followed by two calls per article added and four per article updated; a run that adds and updates nothing makes no call and returns the listing's mapping; a second run over a listing that holds every article's hash, with distinct names, counts every article as skipped and makes no call; a listing that described the store yields a final mapping that still does. Exactly: the returned mapping, the files, the attached files and the call log are the `Replay` of the articles from the listing's mapping and the store before the run, with ids handed out during the run, strictly increasing |

## Left out

- The OpenAI client (upload.py:14, 26-28, 42-44, 84-87, 95-106) is the `RemoteStore` class. The model does not capture network failures, API exceptions, retries, the `purpose` argument or the vector-store id.
- The listing cursor `after=last_id` (upload.py:41-44) is not modelled. The pages are given as the sequence the API returns, and the last page is assumed to say `has_more` false.
- `Upload.Uploader.GetExistingFiles` requires a listing that ends. An endless listing would make the source loop forever, and divergence is not modelled.
- Attribute values are strings in the model. The source's truthiness test also applies to other JSON values, and those are not modelled.
- `tiktoken` encoding (upload.py:56-57) is not modelled. `CountChunks` takes the token count; the model name argument is dropped.
- `Upload.Uploader.CountChunks` requires `overlap < chunk_size` or `total_tokens <= chunk_size`. That is exactly when the source's loop ends: with a stride of zero or less and a text longer than one window, the loop never reaches the end. Divergence is not modelled.
- The coverage lemmas (`LastWindowEndsAtEnd`, `WindowContaining`, `ConsecutiveWindowsTouch`) require `0 <= overlap`. With a negative overlap the windows leave gaps, and the count is still proved exact.
- The chunk estimate inside `upload_file` (upload.py:71) is not computed by `UploadFile`, because its value only feeds a print. The exception `enc.encode` raises on text holding special-token strings, which would abort `upload_file` and `run` before any change, is not modelled either, with `tiktoken` itself.
- MD5 (upload.py:21-22) is an uninterpreted deterministic function, and UTF-8 encoding of the markdown is folded into it.
- `load_dotenv`, environment lookups, printing and timestamps (upload.py:13-15, 108, 112-113, 116-118) are not modelled.
- Lower-casing is ASCII only. Python's `str.lower()` also maps non-ASCII characters; for U+0130 and U+212A the result contains ASCII letters. Titles with such characters are not covered.
- HTTP fetching in `get_articles` (scrape.py:34-39) is not modelled. `Scraper.Run` takes the fetched articles as a parameter.
- `clean_html` and `markdownify` (scrape.py:41-53, 59) are not modelled. They wrap third-party HTML libraries, and the mapping does not depend on them.
- Directory creation, markdown file writes and JSON loading and saving (scrape.py:24-31, 62-65, 69-70) are not modelled. The loaded mapping is a constructor parameter.
- main.py is not part of this model. It is glue between the two stages. `Scraper.run` returns `None` there, so the uploader would receive `None`.
