# Keyword search filtering pipeline of the Reddit scraper, in Dafny

This project models `search_reddit_by_keywords` from the Reddit scraper's `main.py`. The
function searches Reddit once per keyword and keeps the posts that are semantically close to
some keyword. It runs in two stages.

1. **Deduplication and recency.** The function walks the search results keyword by keyword
   and hit by hit. It keys each hit by `"https://www.reddit.com" + permalink`. It skips the hit
   when that key is already in `seen_urls` or when the hit was created before
   `now - days_back` days. Otherwise it records the key and appends a post record whose
   `full_text` is `title + " " + content`. The `seen_urls` set lives for the whole search,
   across all keywords.
2. **Threshold and labelling.** For each kept post, in order, the function checks whether any
   cosine similarity in that post's row of the post × keyword matrix is strictly greater than
   0.6. The scores are float32 tensor elements, so that comparison runs in float32 against the
   literal rounded to float32, 0.60000002384185791015625; the model's `Threshold` is that value.
   If so, it sets the post's `context` to the classifier's label of its full text and
   appends the post to the result.

Files and modules:

- `posts.dfy` (`Posts`): the search hit (`SearchResult`), the kept post (`Post`) and the
  context labels (`Context`). It also holds the constants: the URL prefix, the seconds in a
  day and the label names. The helpers `Url`, `Cutoff`, `ToPost` and `Urls` live here.
- `subsequence.dfy` (`Subsequence`): `Select`, the ascending positions at which a boolean mask
  holds. Both stages are characterised as "the records at `Select(mask)`".
- `dedup.dfy` (`Deduplication`): `Dedup` is the reference definition of stage 1 over the
  flattened hit stream. `CollectRecent` is the nested loop, with a local `seen` set and a
  growing `raw` list. The lemmas characterise `Dedup` as "the first recent occurrence of every
  URL, in stream order".
- `relevance.dfy` (`Relevance`): `IsRelevant` is the `any(score > 0.6 …)` test. `Relevant` is
  the reference definition of stage 2. `SelectRelevant` is the loop over `enumerate(raw_posts)`.
  The lemmas characterise `Relevant` as "the posts whose rows pass, labelled, in order".
- `pipeline.dfy` (`Pipeline`): `ScoreMatrix` builds the similarity matrix, with one row per
  kept post, from that post's full text. `SearchRedditByKeywords` runs both stages. It is proved equal to
  the reference function `Search`, and `SearchResultsAreRelevant` proves the end-to-end
  guarantees. The file also holds three boundary scenarios, each over arbitrary hits.

The external services become inputs:

- the searches are `batches`, where `batches[i]` holds the hits returned for the `i`-th keyword;
- the clock is `now`, in seconds;
- the embedding model together with `util.cos_sim` against the fixed keyword embeddings is
  `similarity`, a function from a text to its row of similarities;
- the zero-shot classifier is `classify`, a function from a text to a `Context`.

## Model

| member | source | states |
|---|---|---|
| `Posts.UrlInjective` | main.py:44 | Two hits share a dedup key exactly when they share a permalink, so deduplicating by URL is deduplicating by permalink. |
| `Posts.Context.Name` | reddit_scraper.py:34-50 | Every label is one of the five category names or `"unknown"`. `"unknown"` is produced only by the fallback label, and each category is named as in the candidate list. |
| `Deduplication.KeptUrlsAreRecentUrls` | main.py:44-48 | The URLs kept (the final `seen_urls`) are exactly the URLs of recent hits. A hit rejected for its age adds no URL, and no recent URL is lost. |
| `Deduplication.FirstRecentLast` | main.py:46 | Proof step of `DedupKeepsFirstRecent`: the last hit of a stream passes the skip test exactly when it is recent and no earlier recent hit has its URL. |
| `Deduplication.DedupSnocFirstRecent` | main.py:46-58 | Proof step of `DedupKeepsFirstRecent`: one loop step appends the hit's record exactly when that hit is the first recent occurrence of its URL. |
| `Deduplication.KeptPositionsAreFirstRecent` | main.py:32-48 | Proof step of `DedupKeepsFirstRecent`, the contract of `Select` applied to the first-recent mask: the kept stream positions ascend, and a position is kept exactly when its hit is recent and no earlier recent hit has its URL. |
| `Deduplication.DedupAtKeptPositions` | main.py:34-59 | Stage 1's output has one record per kept position, in order: the record built from the hit at that position. |
| `Deduplication.DedupKeepsFirstRecent` | main.py:32-59 | Stage 1's output is the record of each hit at an ascending list of stream positions. A position is in that list if and only if its hit is recent and is the first recent hit with its URL. So first occurrence wins across keywords, and order is preserved. |
| `Deduplication.DedupUniqueUrls` | main.py:44-48 | No two records of stage 1's output share a URL. |
| `Deduplication.DedupRecentAndWellFormed` | main.py:31-58 | Every record of stage 1's output has a time at or after the cutoff, so a hit exactly at the cutoff is kept. Its full text is `title + " " + content` and it has no context yet. |
| `Deduplication.CollectBatch` | main.py:43-58 | The loop over one keyword's hits extends the reference `Dedup` of the hits seen so far by that keyword's hits. It keeps `seen` equal to the set of URLs in `raw` at every step. |
| `Deduplication.CollectRecent` | main.py:29-59 | The nested loop with its `seen` set returns the reference `Dedup` of the concatenated results, with the cutoff `now - days_back * 86400`. Its output has unique URLs and only recent posts. The invariants keep `seen` equal to the set of URLs in `raw` at every step. |
| `Relevance.IsRelevant` | main.py:70-71 | The test holds if and only if some score in the row is strictly greater than the threshold, float32(0.6). |
| `Relevance.RelevantIffMaxAboveThreshold` | main.py:71 | On a non-empty row, the test holds exactly when the row's maximum is above the threshold, so a row whose maximum equals float32(0.6) is rejected. |
| `Relevance.ThresholdIsFloat32Boundary` | main.py:71 | A row whose scores are all at most float32(0.6) fails the test, and adding the next float32 above it, 10066331 / 2^24, makes it pass. |
| `Relevance.RelevantKeepsPassingRows` | main.py:69-73 | Stage 2's output is the posts at an ascending list of positions, each labelled with `classify(full_text)` and otherwise unchanged. A position is in that list if and only if its row passes the test. |
| `Relevance.RelevantSoundAndComplete` | main.py:69-73 | Every post kept has a score strictly above the threshold in its row. Every post left out has all its scores at or below it. |
| `Relevance.RelevantKeepsUniqueUrls` | main.py:69-73 | If the input posts have distinct URLs, so do the relevant posts. |
| `Relevance.SelectRelevant` | main.py:69-73 | The loop returns the reference `Relevant`. The classifier is consulted once per kept post, on that post's full text, and nowhere else, and the post's context is its answer. |
| `Pipeline.SearchResultsAreRelevant` | main.py:18-75 | Every returned post has a distinct URL and is no older than the cutoff. Its full text is title plus content, it has a similarity above the threshold to some keyword, and its context is the classifier's label of its full text. |
| `Pipeline.SearchRedditByKeywords` | main.py:18-75 | The whole function equals the reference `Search`, which is stage 1 followed by stage 2, and its result has the guarantees above. |
| `Pipeline.DuplicateAcrossKeywordsKeptOnce` | main.py:32-48 | Scenario: two keywords each return one hit with the same permalink, and the first is recent. Stage 1 then yields exactly one record, built from the first hit. The general case is `DedupKeepsFirstRecent`. |
| `Pipeline.CutoffIsInclusive` | main.py:46 | A hit created exactly at the cutoff is kept. One created a second earlier is dropped. |
| `Pipeline.OldHitNeverReturned` | main.py:46-47 | Scenario: one keyword returns one hit, older than the cutoff. The search returns nothing, whatever the similarities and the classifier. The general case is `SearchResultsAreRelevant`, by which every returned post is no older than the cutoff. |

## Left out

- The Reddit client and credential loading (reddit_scraper.py:9-21, main.py:36-41) are network
  I/O. Their results enter as `batches`. The `sort`, `time_filter` and `limit` arguments of the
  search only shape those results, so they are not modelled.
- `utcnow` is the `now` parameter. Creation times are whole seconds. Fractional `created_utc`
  values and the `strftime` formatting of the stored date are not modelled: `Post.createdUtc`
  holds the number.
- The sentence-embedding model and `util.cos_sim` (main.py:15-16, 64-66) are floating-point
  library code. They are the `similarity` parameter, whose values are exact `real`s. The model
  does not restrict them to float32 values; for a float32 score, comparing it as a `real` with
  `Threshold` gives the same answer as the code's float32 comparison. Differences
  between batch and single encoding, and NaN scores from zero-length embeddings, are not
  modelled.
- The zero-shot classifier and its exception fallback (reddit_scraper.py:33-50) are the
  `classify` parameter. Its range is fixed by the `Context` type, with `Unknown` standing for
  the fallback label. Why a call fails, and the error message it prints, are not modelled.
- Stage 2 sets `context` on the same dictionary that `raw_posts` holds. The model builds a new
  labelled record instead. `raw_posts` is local and discarded, so nothing observable is lost.
- Cutoff: the model computes with unbounded integers and always returns a cutoff. The code
  raises OverflowError in `timedelta(days=days_back)` or in the subtraction (main.py:31) when
  `days_back` exceeds 999999999 days or the cutoff would fall before year 1. It also raises in
  `datetime.fromtimestamp` (main.py:45) for a `created_utc` outside the platform's date range,
  such as a year after 9999. Neither error is modelled.
- The threshold loop requires at least as many score rows as posts. The matrix is
  always built with exactly one row per post (main.py:64-66).
- The code does not skip a hit that has no permalink or no creation time. Reading the missing
  attribute raises (main.py:44-45), and the model does not capture that error. Every
  `SearchResult` has both fields.
- The similarity row of a post is computed against the module-level `KEYWORDS` embeddings
  (main.py:8-16, 66), not against the `keywords` argument that drives the searches
  (main.py:18, 34-37). So `similarity` is deliberately independent of `batches`. The keyword
  list itself is configuration and is not modelled.
- The `days_back=DAYS_BACK` default of 7 days and the `limit=100` default are not modelled.
  `daysBack` is always passed explicitly.
- When stage 1 keeps nothing, the code still calls `model.encode([])` and `util.cos_sim` on an
  empty batch (main.py:64-66). What the embedding library does with an empty batch is not
  modelled. It may raise, while the model returns an empty result.
- All printing, `clear_terminal`, and the `__main__` block are not modelled. That block covers
  reply generation through Ollama, `textwrap.fill` and the console report (main.py:78-108).
