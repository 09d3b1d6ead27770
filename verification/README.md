# Pizzeria RAG ingestion, modelled in Dafny

This project models how the pizzeria assistant builds its vector collection.
The assistant answers menu and allergen questions from PDF documents. Two
ingestion scripts feed the collection.

- `src/1_rag-simple.py` joins the page texts of every PDF. It cuts the text
  into fixed-size character windows (1000 characters, advancing by 800) and
  concatenates the windows of all files. It then submits them to the store
  in batches of ten, with the positional ids `chunk_0`, `chunk_1`, ... A
  batch that raises is logged, and the loop carries on with the next batch.
- `src/1_preprocessing-chroma.py` handles two kinds of file:
  - A recipe file becomes one passage, its whole stripped text. The id is
    `recipe_<slug>`.
  - An allergen file becomes one passage per page that holds more than 100
    characters once stripped. The id is `allergen_<slug>_p<page>`. The
    passage text starts with a `Source : <file>, page <n>` header.

  Every passage gets metadata: a type, the file name, the page for
  allergens, and an `is_veggie` flag. The flag is set when the lower-cased
  text contains "végétarien", "végétarienne" or "veggie". A failing `add` is
  logged and swallowed.

The modules follow that structure:

| module | file | what it holds |
|---|---|---|
| `Wrappers` | wrappers.dfy | `Option` (Python's `None`) and `Result` (an operation that may raise) |
| `Text` | text.dfy | string primitives: `"".join`, `in` on strings, `str.lower()`, `str.strip()`, `str(n)` |
| `Chunker` | chunker.dfy | `load_and_chunk_pdf`: the window arithmetic, and round-trip and overlap properties |
| `Batcher` | batcher.dfy | `all_chunks`, batches of ten, `chunk_{i+j}` ids, the failure-tolerant batch loop |
| `Tagger` | tagger.dfy | `detect_is_veggie` and the properties of the flag |
| `Passages` | passages.dfy | ids, texts and metadata of the recipe and allergen passages |
| `Indexer` | indexer.dfy | `add_text_to_collection` and the recipe and allergen loops |

**The store is an oracle.** The vector store (ChromaDB with Ollama
embeddings) is the function parameter `accepts`. It says whether one `add`
call succeeds. The store's state is the set of ids it holds, because adding
an id twice never yields two documents. `slugify` is a function parameter.
PDF extraction is replaced by its result, the page texts.

**The chunker emits redundant tail windows.** It steps by
`chunk_size - chunk_overlap` until the start passes the end of the text. So
a window that starts within `chunk_overlap` characters of the end is wholly
contained in the window before it. This is `Chunker.TailContained`; a
1700-character text gives windows of 1000, 900 and 100 characters
(`Chunker.ShortTailExample`).

**Positional chunk ids are unstable across runs.** A chunk's id is its
position in the concatenation of all files. So when the file set or one
file's length changes, the same id names a different chunk on the next run.
The model states only what one run does (`Batcher.RunIdsDistinct`,
`Batcher.InsertedIff`). The slug-based ids of the preprocessing script are
the stable ones (`Indexer.AllergenFileCount`, `Indexer.AllergenReingestBound`, `Indexer.Reingest`).

## Model

| member | source | states |
|---|---|---|
| Chunker.LoadAndChunkPdf | src/1_rag-simple.py:28-43 | A zero step (`chunk_size == chunk_overlap`) is the only failure, as `range` raises on it. A negative step yields no chunks. Otherwise the result is the windows of the joined page text at every multiple of the step. |
| Chunker.ChunkOffsets | src/1_rag-simple.py:39-41 | Chunk `k` starts at `k * step`, inside the text, and is `text[k*step : k*step + chunk_size]`. Its length is at most `chunk_size`; only a chunk near the end is shorter. |
| Chunker.ChunkCountOfText | src/1_rag-simple.py:39 | There are `ceil(len(text) / step)` chunks. An empty text gives none, and only an empty text does. |
| Chunker.ChunkCountIsCeiling | src/1_rag-simple.py:39 | The number of multiples of `step` below `n` is `(n + step - 1) / step`. |
| Chunker.RoundTrip | src/1_rag-simple.py:39-41 | Taking the first `step` characters of every chunk and concatenating them gives back the whole text: nothing is lost. |
| Chunker.Overlap | src/1_rag-simple.py:39-41 | The last `chunk_overlap` characters of a full chunk are the first `chunk_overlap` characters of the next chunk. |
| Chunker.TailContained | src/1_rag-simple.py:39-41 | A chunk that starts at most `chunk_overlap` characters before the end is a suffix of the chunk before it. |
| Chunker.ShortTailExample | src/1_rag-simple.py:28 | With the defaults 1000/200, a 1700-character text gives three chunks of 1000, 900 and 100 characters. |
| Chunker.OffsetIsProduct | src/1_rag-simple.py:39 | The `k`-th value of `range(0, n, step)` is `k * step`. |
| Batcher.CollectChunks | src/1_rag-simple.py:71-74 | `all_chunks` is the chunk lists of the files concatenated in file order. The chunks of each file directly follow those of all earlier files. |
| Batcher.EarlierFilesFirst | src/1_rag-simple.py:72-74 | The chunks of file `f` come right after those of files `0..f-1` in `all_chunks`. |
| Batcher.BatchShape | src/1_rag-simple.py:87-89 | Batch `b` starts at `10 * b`, holds 1 to 10 consecutive chunks, and names its chunk `j` `chunk_{start + j}`. |
| Batcher.BatchesPartition | src/1_rag-simple.py:87-88 | The batches concatenated in order are exactly `all_chunks`: every chunk is in exactly one batch. |
| Batcher.BatchIdsInOrder | src/1_rag-simple.py:87-89 | Read batch after batch, the ids are `chunk_0 ... chunk_{n-1}`. |
| Batcher.RunIdsDistinct | src/1_rag-simple.py:89 | One run gives as many ids as chunks, pairwise distinct. |
| Batcher.ChunkIdInjective | src/1_rag-simple.py:89 | `chunk_p == chunk_q` exactly when `p == q`. |
| Batcher.IndexChunks | src/1_rag-simple.py:84-95 | The loop submits every batch whatever happened before. The store ends with its old ids plus those of the accepted batches. The log lists the start of every refused batch, in order. |
| Batcher.InsertedIff | src/1_rag-simple.py:87-95 | After the run, `chunk_p` is stored exactly when it was stored before or the batch holding `p` was accepted. The run adds no id other than a `chunk_p` with `p < n`. |
| Batcher.Isolation | src/1_rag-simple.py:91-95 | Take two runs whose store answers agree on every batch the loop submits except the one at `s`. They end with the same ids outside that batch. |
| Batcher.MiddleBatchFails | src/1_rag-simple.py:91-95 | With three batches of which the middle one fails, the first and third batches are stored, the middle one is not, and the log names batch 10. |
| Batcher.CountWhenAllAccepted | src/1_rag-simple.py:99 | When every batch the loop submits is accepted, the run inserts exactly one id per chunk. |
| Text.NatToStringInjective | src/1_rag-simple.py:89 | Decimal renderings of two naturals agree exactly when the numbers do. |
| Text.ParseNatToString | src/1_preprocessing-chroma.py:67 | Reading back the decimal rendering of `n` gives `n`. |
| Text.Strip | src/1_preprocessing-chroma.py:47 | `strip()` returns a contiguous piece of its input whose first and last characters are not whitespace. All removed characters are whitespace, and the result is empty exactly when the input is all whitespace. |
| Text.ContainsIff | src/1_preprocessing-chroma.py:30 | `word in txt` holds exactly when `word` occurs in `txt` at some index. |
| Tagger.DetectIsVeggie | src/1_preprocessing-chroma.py:28-30 | The scan over the terms returns true exactly when one of the three terms occurs in the lower-cased text. |
| Tagger.Find | src/1_preprocessing-chroma.py:30 | The left-to-right scan finds `word` exactly when `word in txt`. |
| Tagger.CaseInsensitive | src/1_preprocessing-chroma.py:29 | Texts that agree up to letter case get the same flag, and lower-casing first changes nothing. |
| Tagger.Monotone | src/1_preprocessing-chroma.py:28-30 | Adding text before or after a vegetarian text keeps it vegetarian. |
| Tagger.JoinedFlag | src/1_preprocessing-chroma.py:52 | The recipe flag computed on `stem + " " + text` is set exactly when the stem or the text is vegetarian on its own. |
| Tagger.SecondKeywordRedundant | src/1_preprocessing-chroma.py:30 | The flag depends only on "végétarien" and "veggie", since "végétarienne" contains "végétarien". |
| Tagger.UpperCaseTitle | src/1_preprocessing-chroma.py:28-30 | "Pizza VÉGÉTARIENNE" and "pizza végétarienne" are flagged. |
| Tagger.PlainTitle | src/1_preprocessing-chroma.py:28-30 | "Pizza Reine" is not flagged. |
| Passages.RecipeSkipped | src/1_preprocessing-chroma.py:47-49 | A recipe file is skipped exactly when every page is missing or holds only whitespace. |
| Passages.RecipeShape | src/1_preprocessing-chroma.py:47-58 | A recipe passage has id `recipe_<slug of stem>`. Its text is a non-empty substring of the joined page texts with no whitespace at either end. Its metadata holds exactly `type`, `file` and `is_veggie`, with the flag set when the stem or the text is vegetarian. |
| Passages.RecipeIdInjective | src/1_preprocessing-chroma.py:51 | Two recipe ids agree exactly when the slugs do. |
| Passages.AllergenKept | src/1_preprocessing-chroma.py:65-66 | A page is indexed exactly when it has a text longer than 100 characters once stripped (`Kept`). The `content and` test decides nothing on its own. |
| Passages.AllergenShape | src/1_preprocessing-chroma.py:64-76 | Whether a page is indexed, its `is_veggie` flag and its `page` number depend on the page text alone. Two files with the same text at page `i` agree on all three, whatever their names. The flag is that of the passage text with the `Source :` header cut off. |
| Passages.AllergenPageInId | src/1_preprocessing-chroma.py:67-72 | The `page` metadata equals the number written after `_p` in the passage's id. |
| Passages.VeggieFileName | src/1_preprocessing-chroma.py:68-75 | For a file named `veggie.pdf`, the passage text contains "veggie" through its header. A page without any indicator term still gets `is_veggie` false. |
| Passages.HeaderFraming | src/1_preprocessing-chroma.py:75 | The allergen text begins with `Source : `, ends with the page text unchanged, and the 1-based page number can be read back from the header. |
| Passages.AllergenPagesDistinct | src/1_preprocessing-chroma.py:67 | Two pages of one file get the same id exactly when they are the same page. |
| Passages.AllergenIdInjective | src/1_preprocessing-chroma.py:67 | An allergen id determines both the slug and the page, for any slugs: the last underscore of the id is the one before `p<page>`. |
| Passages.IdSchemesDisjoint | src/1_preprocessing-chroma.py:51-67 | Recipe, allergen and chunk ids never coincide. |
| Indexer.EffectiveMetadata | src/1_preprocessing-chroma.py:37 | `metadata or {}` replaces only a missing map: a given map, even an empty one, is passed on unchanged. |
| Indexer.AddText | src/1_preprocessing-chroma.py:33-41 | One call adds `uid` to the store exactly when the store accepts it. Otherwise it logs `uid`. No other id changes, and nothing is raised. |
| Indexer.SubmitAllStored | src/1_preprocessing-chroma.py:33-41 | After a sequence of calls, an id is stored exactly when it was stored before or some accepted passage carries it. A refused call affects no other passage. |
| Indexer.SubmitAllErrors | src/1_preprocessing-chroma.py:40-41 | The log is the ids of the refused passages, in call order. |
| Indexer.StoredWhenAllAccepted | src/1_preprocessing-chroma.py:33-41 | When every call succeeds, the store gains exactly the passages' ids and nothing is logged. |
| Indexer.Reingest | src/1_preprocessing-chroma.py:45-76 | Running the same passages again against an accepting store leaves the stored ids unchanged. |
| Indexer.RecipePassages | src/1_preprocessing-chroma.py:45-58 | The recipe loop yields at most as many passages as there are files. |
| Indexer.RecipePassagesCount | src/1_preprocessing-chroma.py:45-58 | The recipe loop yields exactly as many passages as there are files that are not skipped. |
| Indexer.RecipePassagesMembers | src/1_preprocessing-chroma.py:45-58 | The recipe loop submits one passage per file that is not skipped, and nothing else. |
| Indexer.AllergenPassagesMembers | src/1_preprocessing-chroma.py:62-76 | The allergen loop submits, for one file, the passage of every kept page and nothing else. |
| Indexer.AllergenIdsDistinct | src/1_preprocessing-chroma.py:64-67 | The passages of one allergen file have pairwise distinct ids, so no page is attempted twice under the same id. |
| Indexer.AllergenPassagesCount | src/1_preprocessing-chroma.py:64-66 | One allergen file yields exactly as many passages as it has kept pages. |
| Indexer.AllergenFileCount | src/1_preprocessing-chroma.py:62-79 | Ingesting one allergen file into an empty, accepting store gives one document per kept page, at most the page count. Ingesting it again adds nothing. |
| Indexer.AllergenReingestBound | src/1_preprocessing-chroma.py:62-79 | Whatever the store answers in either run, ingesting one allergen file twice into an empty store leaves only ids of that file's passages, at most one per kept page, so never more than the page count. |
| Indexer.PassageIdsSize | src/1_preprocessing-chroma.py:79 | A sequence of passages has at most as many distinct ids as passages, and exactly as many when its ids are distinct. |
| Indexer.IndexRecipes | src/1_preprocessing-chroma.py:45-58 | The recipe loop makes one call per non-skipped file, in file order. |
| Indexer.IndexAllergenFile | src/1_preprocessing-chroma.py:63-76 | The page loop of one file makes one call per kept page, in page order. |
| Indexer.IndexAllergens | src/1_preprocessing-chroma.py:62-76 | The allergen loop makes the calls of each file in turn. |
| Indexer.Preprocess | src/1_preprocessing-chroma.py:45-79 | The script submits the recipe passages and then the allergen passages, whatever the store answers. The reported count is the number of stored ids. |

## Left out

- PDF text extraction (PyPDF2 `PdfReader`, `extract_text`) and LangChain's `DirectoryLoader` are not modelled. Their results are inputs: the page texts of each file, and the list of files. Each file counts once; a loader returning several documents per file is not modelled.
- The order of the `glob` results is an input: the files come as a sequence.
- ChromaDB and the Ollama embedding function are not modelled. The store is the oracle `accepts` plus a set of ids, so embeddings, the metadata validation and the exception messages are not modelled. `collection.count()` is modelled as the size of that id set, which assumes the store keeps one document per id.
- `slugify` is a function parameter, and no property of it is assumed.
- `print`, `tqdm`, `time.sleep(1)` and the environment variable are left out. A log line is modelled as the id or batch start it names.
- `Text.Lower`: does not model Python's full Unicode `str.lower()`. It folds ASCII `A`-`Z` and the Latin-1 capitals U+00C0 to U+00DE, except U+00D7. Every other character is left unchanged. This covers the accented capitals of the French terms.
- `Chunker.LoadAndChunkPdf`: takes every page text as a string. The source's `"".join(page.extract_text() ...)` raises `TypeError` when a page yields `None`, and that error path is not modelled. The preprocessing script's `or ""` does handle `None`, and `Passages.PageTexts` models it. `chunk_size` is taken as non-negative (a `nat`). Python would accept a negative one, and the slice would then end relative to the end of the text. The script only uses the default 1000.
- `Batcher.CollectChunks`: uses the default chunking (1000/200), as the script calls `load_and_chunk_pdf(pdf_file)` without arguments.
- `src/2_rag-langchain.py` (retrieval, prompt and LLM call, web UI) is not part of this model.
- `Passages.Stem`: models `path.stem` only for names ending in `.pdf`, the only names the `*.pdf` glob yields.
