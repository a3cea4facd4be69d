# FlagSimilarity: similarity search, result grid and flag-file helpers

FlagSimilarity finds the national flags that look most like a given flag.
Every flag image is run through several pretrained image networks. Each
network's bottleneck features are stored as one CSV table per network, with
one row per image labelled `(filename, territory_name)`. This project models
the two parts of the code that carry the logic.

**`Visualisation/viz_utils.py`**
- `SimilaritySearch.__init__` loads one feature table per CSV file. It
  names each one after the file's stem, fits a cosine nearest-neighbour
  index on each, and pre-computes a square similarity table for each.
- `search` checks the query type. It then asks every model for the hits of
  the query territory:
  - `find_knn_items` returns the index's nearest rows;
  - `find_cosinesimilar_items` returns the `knn_k` most similar rows of the
    similarity table, scored as one minus the similarity.
- `get_image_grid` lays the hits out: one column per model, the model's
  name on top, then a caption and a thumbnail per hit.

**`utils/dl_utils.py`**
- `get_stylised_name_from_fpath` turns a Wikimedia flag file name into a
  territory name.
- `MySequence` cuts the list of image paths into batches.
- `get_bottleneck_features` stacks the per-batch feature tables. Their
  columns are named `F_000000`, `F_000001`, …

The model is split into modules:
- `Wrappers`, `Sequences` (Python slices), `PyDicts` (insertion-ordered
  `dict`), `Paths` (`os.path.basename` and `splitext`), `PercentDecoding`
  (`urllib.parse.unquote` and its partner `quote`) and `Text` (`str.replace`,
  `split(sep)[0]`, `str.title`) model the library behaviour the code relies on.
- `DlUtils` models the flag-name pipeline. `FlagNameExamples` checks the
  pipeline against the examples in its doc comment.
- `Batching` models `MySequence` and `get_bottleneck_features`.
- `VizUtils` models the `SimilaritySearch` class and its searches.
- `ImageGrid` models the layout of `get_image_grid`.

Each numeric library call becomes a parameter, together with a predicate
that says what the model relies on:
- `readCsv` stands for `pd.read_csv` and gives one label per row
  (`ReadsTables`).
- `cosine` stands for sklearn's `cosine_similarity` and gives an N by N table
  (`IsSimilarity`).
- `kneighbors` stands for a fitted `NearestNeighbors` query and gives
  `n_neighbors` in-range rows, nearest first (`IsNeighbourQuery`).
- `sortDesc` stands for `sort_values(ascending=False)` and gives a
  permutation in descending order, in any order among ties
  (`IsDescendingSort`).
- `load` stands for opening and resizing one image.
- `model` stands for the network and gives one row per image
  (`OneRowPerImage`).

The files that `glob` finds are the constructor's `csvFilelist` argument.

Where the code's behaviour and its comments differ, the model follows the code:
- The cosine search keeps `min(knn_k, N)` rows, because `head` clamps.
  `TopMatches` on its own also keeps all but the last `-k` rows for a
  negative `k`; a search never reaches that case, because `__init__`
  rejects `knn_k < 1` when there are files.
- A later model with more hits than the first model has its extra rows
  pasted below the bottom of the grid, where they are cropped away.

## Model

| member | source | states |
|---|---|---|
| Sequences.SliceBound | utils/dl_utils.py:61 | a Python slice bound lands in `[0, n]`: unchanged inside, clamped above, counted from the end when negative and clamped at 0 |
| Sequences.PySlice | utils/dl_utils.py:61 | for `0 <= start <= stop` the slice is the elements from `min(start, n)` up to `min(stop, n)`; never longer than the list |
| PyDicts.Dict.Set | Visualisation/viz_utils.py:136 | `d[k] = v` keeps the dictionary well formed, maps `k` to `v`, appends a new key at the end and leaves an existing key in its place |
| PyDicts.FromItemsHas | Visualisation/viz_utils.py:131-136 | after assigning a list of items in turn, a key is present exactly when some item has it |
| PyDicts.FromItemsLast | Visualisation/viz_utils.py:136 | a key holds the value of the last item that assigned it |
| PyDicts.FromItemsValue | Visualisation/viz_utils.py:136 | every stored value came from an item with that key |
| PyDicts.FromItemsKeys | Visualisation/viz_utils.py:131-136 | items with distinct keys give the dictionary exactly those keys, in item order |
| PyDicts.FromKeyed | Visualisation/viz_utils.py:138-150 | `for k in keys: d[k] = f(k)` over distinct keys gives keys `keys`, in order, with value `f(k)` at each |
| PyDicts.FillFrom | Visualisation/viz_utils.py:167-177 | filling a dict from `f` over distinct keys succeeds exactly when `f` succeeds on every key; on success the keys are `keys` in order and each value is `f`'s; a failure is the error of the first key that fails, every earlier key having succeeded, and no partial dict is returned |
| Paths.Basename | utils/dl_utils.py:27 | the basename is the suffix of the path after its last '/', and holds no '/' |
| Paths.SplitExt | utils/dl_utils.py:28 | root and extension concatenate back to the path; the extension is empty or a '.' followed by no '.' or '/'; a leading run of dots is not an extension; and when nothing is split off, every '.' of the last component belongs to its leading run of dots |
| Paths.Stem | Visualisation/viz_utils.py:134 | `splitext(basename(f))[0]`; `StemOfBasename` and `StemOfCsvPath` state its properties |
| Paths.StemOfBasename | Visualisation/viz_utils.py:134 | the feature-set name is the front of the file's basename and holds no '/' |
| Paths.BasenameOfJoin | Visualisation/viz_utils.py:134 | the basename of `dir/name` is `name` |
| Paths.SplitExtOfJoin | Visualisation/viz_utils.py:134 | `splitext(stem + "." + ext)` gives back `stem` and `"." + ext` |
| Paths.StemOfCsvPath | Visualisation/viz_utils.py:134 | a feature set is named after its file: `.../VGG16.csv` gives `VGG16` |
| PercentDecoding.UnquoteToBytesOfPercentEncode | utils/dl_utils.py:28 | decoding `%XX` triples gives back exactly the bytes that percent-encoding wrote |
| PercentDecoding.Utf8DecodeOfEncode | utils/dl_utils.py:28 | UTF-8 decoding gives back every code point that UTF-8 encoding wrote |
| PercentDecoding.UnquoteOfQuote | utils/dl_utils.py:28 | `unquote(quote(s)) == s` for every string |
| PercentDecoding.DecodeRunsWithoutPercent | utils/dl_utils.py:28 | a string without '%' is left unchanged by `unquote` |
| PercentDecoding.QuoteAppend | utils/dl_utils.py:28 | encoding a concatenation encodes each part |
| PercentDecoding.QuoteOfSafe | utils/dl_utils.py:28 | unreserved characters encode to themselves |
| PercentDecoding.UnquoteToBytes | utils/dl_utils.py:28 | the `%XX`-to-bytes step of `unquote` on one ASCII run (never longer than its input); `UnquoteToBytesOfPercentEncode` states that it inverts percent-encoding |
| PercentDecoding.Utf8Decode | utils/dl_utils.py:28 | UTF-8 decoding with replacement, never more characters than bytes; `Utf8DecodeOfEncode` states that it inverts UTF-8 encoding |
| PercentDecoding.DecodeRuns | utils/dl_utils.py:28 | `unquote`'s split into ASCII runs, each decoded, with non-ASCII text passed through; its properties are `DecodeRunsWithoutPercent` and `UnquoteOfQuote` |
| PercentDecoding.Unquote | utils/dl_utils.py:28 | `urllib.parse.unquote`, with its early return for text without '%'; `UnquoteOfQuote` states that it inverts `quote` |
| Text.CutAtFirst | utils/dl_utils.py:28 | `s.split(sep)[0]` is the prefix of `s` before the first occurrence of `sep`, or all of `s` when there is none |
| Text.CutAtFirstBefore | utils/dl_utils.py:28 | the text before a first `"_("` is what the cut keeps |
| Text.Replace | utils/dl_utils.py:31 | `str.replace`: occurrences found left to right, not overlapping, replaced text not searched again; its properties are `ReplaceChar`, `ReplaceWithoutOccurrence` and `ReplaceAtStart` |
| Text.ReplaceChar | utils/dl_utils.py:31 | replacing one character by another changes exactly that character, position by position |
| Text.ReplaceWithoutOccurrence | utils/dl_utils.py:31 | a text without the pattern is left unchanged by `replace` |
| Text.ReplaceAtStart | utils/dl_utils.py:31 | an occurrence at the start is replaced and the rest is searched on its own |
| Text.Title | utils/dl_utils.py:31 | `title()` keeps the length; a cased character becomes upper case after an uncased one and lower case after a cased one; uncased characters stay |
| Text.TitleIdempotent | utils/dl_utils.py:31 | title-casing twice is title-casing once |
| Text.TitleKeepsUncased | utils/dl_utils.py:31 | `title()` neither adds nor removes an uncased character such as '_' |
| Text.TitleJoin | utils/dl_utils.py:31 | title-casing space-joined words title-cases each word |
| Text.ReplaceCharJoin | utils/dl_utils.py:31 | replacing the separator of words that do not contain it rejoins them with the new separator |
| DlUtils.Spaced | utils/dl_utils.py:31 | after deleting "Flag_of_" and turning '_' into spaces, no '_' is left |
| DlUtils.DecodedStem | utils/dl_utils.py:27-28 | the stem of the basename, percent-decoded and cut before its first "_("; `DecodedStemOfFlagFile` gives its value on a flag file |
| DlUtils.StripThe | utils/dl_utils.py:34-35 | a name starting with "The " loses exactly those four characters, once; any other name is unchanged |
| DlUtils.StylisedName | utils/dl_utils.py:27-37 | the first component is the path's basename, unchanged; the territory name holds no '_'; the doc-comment examples are the `FlagNameExamples.…Stylised` rows |
| DlUtils.QuoteJoin | utils/dl_utils.py:28 | percent-encoding words joined by a separator that is its own encoding encodes word by word |
| DlUtils.StylisedNameOfFlagFile | utils/dl_utils.py:12-37 | for every file `Flag_of_<w1>_…_<wn><"_(…)" or nothing>.<ext>` stored percent-encoded, the name is the words joined by spaces, title-cased, less one leading "The " |
| DlUtils.DecodedStemOfFlagFile | utils/dl_utils.py:27-28 | such a file's basename is itself, and its decoded stem cut at "_(" is `Flag_of_` and the words |
| DlUtils.CutFlagStem | utils/dl_utils.py:28 | the cut at the first "_(" removes exactly the qualifier |
| DlUtils.SpacedFlagStem | utils/dl_utils.py:31 | deleting "Flag_of_" and spacing a flag stem gives its words joined by spaces |
| FlagNameExamples.AustraliaQualifierDecodes | utils/dl_utils.py:16 | "%28converted%29" decodes to "(converted)" |
| FlagNameExamples.AustraliaQualifierCut | utils/dl_utils.py:16 | "Flag_of_Australia_(converted)" is cut to "Flag_of_Australia" |
| FlagNameExamples.CoteDecodes | utils/dl_utils.py:18 | "C%C3%B4te" decodes, through the two UTF-8 bytes of 'ô', to "Côte" |
| FlagNameExamples.DIvoireDecodes | utils/dl_utils.py:18 | "d%27Ivoire" decodes to "d'Ivoire" |
| FlagNameExamples.CoteDIvoireTitle | utils/dl_utils.py:18 | "Côte d'Ivoire" title-cases to "Côte D'Ivoire" |
| FlagNameExamples.CongoTitle | utils/dl_utils.py:20 | "the Democratic Republic of the Congo" title-cases to "The Democratic Republic Of The Congo" |
| FlagNameExamples.CongoStripThe | utils/dl_utils.py:20 | and the leading "The " then goes: "Democratic Republic Of The Congo" |
| FlagNameExamples.QualifiedFlagFile | utils/dl_utils.py:27-37 | a one-word flag file with a "(qualifier)" suffix, `Flag_of_<w>_%28<q>%29.<ext>`, is named after its word, title-cased, less a leading "The " |
| FlagNameExamples.PlainFlagFile | utils/dl_utils.py:27-37 | a flag file without a qualifier is named after its words, joined by spaces, title-cased, less a leading "The " |
| FlagNameExamples.AustraliaStylised | utils/dl_utils.py:16 | `get_stylised_name_from_fpath('Flag_of_Australia_%28converted%29.jpg') == ('Flag_of_Australia_%28converted%29.jpg', 'Australia')` |
| FlagNameExamples.BelgiumStylised | utils/dl_utils.py:17 | the Belgium path gives `'Belgium'`, with the path itself as basename |
| FlagNameExamples.CoteDIvoireStylised | utils/dl_utils.py:18 | the Côte d'Ivoire path gives `"Côte D'Ivoire"`, with the path itself as basename |
| FlagNameExamples.CanadaStylised | utils/dl_utils.py:19 | the Canada path gives `'Canada'`, with the path itself as basename |
| FlagNameExamples.CongoStylised | utils/dl_utils.py:20 | the Congo path gives `'Democratic Republic Of The Congo'`, with the path itself as basename |
| Batching.CeilDiv | utils/dl_utils.py:55 | `math.ceil(n / d)` is the least `q` with `n <= q*d` for positive `d`, and the matching bound for negative `d` |
| Batching.MySequence.constructor | utils/dl_utils.py:44-50 | the fields hold the arguments, and `n_images` is the number of paths |
| Batching.MySequence.Len | utils/dl_utils.py:54-55 | `__len__` raises exactly for batch size 0; otherwise it is the ceiling of `n_images / batch_size` |
| Batching.LoadBatch | utils/dl_utils.py:66-70 | the loop loads every path of the batch and names every path, in order |
| Batching.MySequence.GetItem | utils/dl_utils.py:60-75 | `__getitem__` returns the loaded images of batch `idx`, preceded by their stylised names exactly when `return_filenames` is set |
| Batching.MySequence.Batch | utils/dl_utils.py:61 | the slice `img_fpaths_list[idx*bs:(idx+1)*bs]` with Python's clamping; `BatchSlice`, `BatchesCover` and `BatchNonEmpty` state what it holds |
| Batching.MySequence.BatchSlice | utils/dl_utils.py:61 | batch `idx` is the paths from `min(idx*bs, n)` to `min((idx+1)*bs, n)`, at most `bs` of them |
| Batching.MySequence.BatchesPrefix | utils/dl_utils.py:61 | batches `0..k-1`, one after another, are the first `min(k*bs, n)` paths |
| Batching.MySequence.BatchesCover | utils/dl_utils.py:54-61 | the `__len__` batches, in order, give back the whole path list |
| Batching.MySequence.BatchNonEmpty | utils/dl_utils.py:54-61 | every batch below `__len__` holds at least one path |
| Batching.FixedDigits | utils/dl_utils.py:101 | the zero-padded field is exactly `w` decimal digits |
| Batching.NumDigitsBounds | utils/dl_utils.py:101 | the unpadded digit count is the least number of digits that holds the value |
| Batching.ColumnNames | utils/dl_utils.py:101 | a table of `width` features has `width` columns, column `i` named `ColumnName(i)` |
| Batching.ColumnName | utils/dl_utils.py:101 | `f"F_{i:06d}"`: "F_" and at least six digits; `ColumnNameRoundTrip`, `ColumnNameInjective` and `ColumnNameOrder` state its properties |
| Batching.ColumnNameRoundTrip | utils/dl_utils.py:101 | column `i`'s name is "F_" and digits that read back as `i` |
| Batching.ColumnNameInjective | utils/dl_utils.py:101 | different columns have different names |
| Batching.ColumnNameShape | utils/dl_utils.py:101 | below a million, a name is "F_" and exactly six digits |
| Batching.ColumnNameOrder | utils/dl_utils.py:101 | below a million, names sort lexicographically in column order |
| Batching.Concat | utils/dl_utils.py:104 | `pd.concat` of an empty list raises; otherwise the rows and labels are stacked in order under the shared columns |
| Batching.Frames | utils/dl_utils.py:94-102 | one frame per batch, every frame with the `F_` columns |
| Batching.BatchFrame | utils/dl_utils.py:96-101 | one batch's frame: its names as the row index, the `F_` columns, and the model's rows; `FramesIndex` and `FramesRowCount` state what the stacked frames hold |
| Batching.FramesIndex | utils/dl_utils.py:94-104 | the frames' row labels, stacked, are the stylised names of the batches' paths in order |
| Batching.FramesRowCount | utils/dl_utils.py:94-104 | a model with one row per image gives the stacked frames one row per path |
| Batching.ConcatFrames | utils/dl_utils.py:94-104 | the concatenated frames of all batches are labelled with every path's name, in order, and have one row per path |
| Batching.BottleneckFeatures | utils/dl_utils.py:78-104 | `get_bottleneck_features` raises for batch size 0, for no batches and for a sequence that returns no names; otherwise its table labels every image with its name, in path order, names columns `F_…` and has one row per image |
| VizUtils.ParseQueryType | Visualisation/viz_utils.py:168-169 | "knn" and "cosine" are the two query types, and every other string is refused |
| VizUtils.Territories | Visualisation/viz_utils.py:148 | the territory level of an index, label by label |
| VizUtils.Position | Visualisation/viz_utils.py:161 | the first position of a territory name, and none exactly when the name is absent |
| VizUtils.FeatureTable.Row | Visualisation/viz_utils.py:171 | the row of a territory name, and none exactly when no row has that name |
| VizUtils.LoadTables | Visualisation/viz_utils.py:131-136 | the loaded tables form a well-formed dictionary |
| VizUtils.LoadTablesNames | Visualisation/viz_utils.py:131-136 | the feature-set names are exactly the stems of the CSV files |
| VizUtils.LoadTablesLast | Visualisation/viz_utils.py:134-136 | a feature set holds the table of the last file with its stem |
| VizUtils.LoadedTablesValid | Visualisation/viz_utils.py:136 | every loaded table has one label per row |
| VizUtils.SimilarityFrame | Visualisation/viz_utils.py:145-148 | the similarity table of one feature table; `SimilarityFrameShape` states its shape and labels |
| VizUtils.SimilarityFrameShape | Visualisation/viz_utils.py:145-148 | for N rows the similarity table is N by N, its rows labelled as in the feature table and its columns by the same rows' territory names |
| VizUtils.Column | Visualisation/viz_utils.py:161 | a territory's column holds entry `j` of every row |
| VizUtils.TopMatches | Visualisation/viz_utils.py:161-164 | `(1 - col.sort_values(ascending=False).head(k)).reset_index()`; `TopMatchesRows`, `TopMatchesAscending`, `TopMatchesTopK`, `TopMatchesOmitted` and `TopMatchesSelfFirst` state its properties |
| VizUtils.TopMatchesRows | Visualisation/viz_utils.py:161-164 | `head(k)` keeps `SliceBound(k, N)` rows of the descending order, each labelled by its own row and scored one minus its similarity |
| VizUtils.TopMatchesAscending | Visualisation/viz_utils.py:161-164 | the scores never decrease down the list |
| VizUtils.TopMatchesTopK | Visualisation/viz_utils.py:161 | every row left out is at most as similar as every row kept |
| VizUtils.TopMatchesOmitted | Visualisation/viz_utils.py:161 | stated on the hits alone: a row whose territory is not among the hits is at most as similar as every hit |
| VizUtils.TopMatchesDistinct | Visualisation/viz_utils.py:161-164 | with each territory named once in the rows, no territory is named twice in the hits |
| VizUtils.TopMatchesRanked | Visualisation/viz_utils.py:161-164 | the kept rows answer the query: scores non-decreasing, no territory twice, each hit a row's labels scored one minus its similarity, and no omitted row more similar than a hit |
| VizUtils.PositionOf | Visualisation/viz_utils.py:161 | every row has a place in the sorted order |
| VizUtils.TopMatchesSelfFirst | Visualisation/viz_utils.py:161 | when the query's own row is strictly the most similar, it comes first, with score 0 when its self-similarity is 1 |
| VizUtils.SimilaritySearch.constructor | Visualisation/viz_utils.py:123-150 | for `knn_k >= 1` and tables with rows (otherwise the fit raises), after `__init__` the tables are those of the CSV files, every table has an index and a similarity table, and the three dictionaries share their keys in load order |
| VizUtils.SimilaritySearch.LoadFeatures | Visualisation/viz_utils.py:131-136 | the first loop stores each file's table under its stem, in file order, and leaves the other dictionaries alone |
| VizUtils.SimilaritySearch.FitNeighbours | Visualisation/viz_utils.py:138-141 | the second loop fits an index with `knn_k` neighbours on every table's rows, under the same keys in the same order |
| VizUtils.SimilaritySearch.PrecomputeSimilarity | Visualisation/viz_utils.py:143-150 | the third loop stores every table's similarity table, under the same keys in the same order |
| VizUtils.SimilaritySearch.FindKnnItems | Visualisation/viz_utils.py:153-158 | `knn_k` hits, nearest first; hit `i` is the filename and territory of the `i`-th neighbour's row, scored by its distance |
| VizUtils.SimilaritySearch.FindCosinesimilarItems | Visualisation/viz_utils.py:160-164 | unknown territory raises; otherwise `min(knn_k, N)` hits naming distinct territories, scores non-decreasing, each a row's labels scored one minus its similarity to the query, and no row whose territory is left out more similar than any hit: the top `min(knn_k, N)` rows, up to ties |
| VizUtils.SimilaritySearch.Hits | Visualisation/viz_utils.py:169-175 | one model's hits: by nearest neighbours of the query's row for "knn", from the similarity table for "cosine"; an unknown territory raises either way |
| VizUtils.SimilaritySearch.Search | Visualisation/viz_utils.py:166-177 | a bad query type fails the assertion; otherwise the search succeeds exactly when every model knows the territory, returns one hit list per model, models in load order and no other keys, and fails with `KeyError` otherwise |
| ImageGrid.GridWidth | Visualisation/viz_utils.py:72 | `n_models*thumb + (n_models+1)*spacing`; `ColumnEdges` states that the last column leaves `spacing` before it |
| ImageGrid.GridHeight | Visualisation/viz_utils.py:77 | `32 + n_results*(thumb+32)`; `ColumnFits` states that the last thumbnail ends exactly there |
| ImageGrid.ColumnX | Visualisation/viz_utils.py:82-118 | the value of the column tracker before column `c`; `ColumnEdges` and `PasteColumns` state how it advances |
| ImageGrid.RowPastes | Visualisation/viz_utils.py:88-115 | two pastes per hit |
| ImageGrid.ColumnPastes | Visualisation/viz_utils.py:87-115 | the header at the top of a column, then the hits' pastes; `PastesAbut`, `ColumnFits` and `FillColumn` state where each lands |
| ImageGrid.RowPastesAt | Visualisation/viz_utils.py:99-115 | hit `r`'s caption is at `32 + r*(thumb+32)` and its thumbnail one label box lower |
| ImageGrid.Columns | Visualisation/viz_utils.py:83-118 | column `c` is at `x = spacing + c*(thumb+spacing)` and holds model `c`'s pastes |
| ImageGrid.PastesAbut | Visualisation/viz_utils.py:87-115 | every paste starts where the one before it ends: the column tracker moves down by exactly what was pasted |
| ImageGrid.ColumnFits | Visualisation/viz_utils.py:77-115 | every paste of a column lies inside a grid sized for its hits, and the last thumbnail ends exactly at `grid_height` |
| ImageGrid.ExtraRowsHidden | Visualisation/viz_utils.py:64-77 | rows beyond the first model's hit count start at or below the bottom of the grid |
| ImageGrid.ColumnEdges | Visualisation/viz_utils.py:72-118 | columns are `spacing` apart, and the last one leaves `spacing` before the right edge at `grid_width` |
| ImageGrid.FillColumn | Visualisation/viz_utils.py:87-115 | the inner loop pastes the header, then each hit's caption and thumbnail, exactly as the column layout says |
| ImageGrid.PasteColumns | Visualisation/viz_utils.py:82-118 | the outer loop fails for a negative thumbnail size, then for a model without hits, and otherwise places every model's column at its tracker position |
| ImageGrid.GetImageGrid | Visualisation/viz_utils.py:57-120 | no models raises; a negative grid or thumbnail size raises; a model without hits raises; otherwise the grid is `grid_width` by `grid_height` and holds every model's column |

## Left out

- Image work is not modelled: `draw_label`, `does_label_needs_to_be_wrapped`, fonts, text wrapping, the `:0.3f` caption format, and PIL's `Image.new`, `open`, `resize` and `paste`. A paste is recorded as a tile and a position. The errors font measurement can raise are not modelled either. One example: a zero thumbnail width makes the text wrapper reject width 0.
- The numerics of `cosine_similarity`, `NearestNeighbors` and the sort are parameters, constrained only by the predicates above. Tie order is whatever `sortDesc` gives.
- `glob`, `pd.read_csv`, logging and `tqdm` are left out. The file list and `readCsv` are parameters.
- VizUtils.SimilaritySearch.Search: requires at least `knn_k >= 2` rows per model for "knn", and distinct territory names in every model. With `knn_k == 1`, `squeeze()` gives a scalar. With repeated names, a lookup gives a frame. `kneighbors` raises for too few rows. All of these are shape behaviours of numpy and pandas outside the model.
- VizUtils.SimilaritySearch.constructor: requires `knn_k >= 1` when there are files, and at least one row in every loaded table. sklearn's `NearestNeighbors.fit` and `cosine_similarity` raise `ValueError` otherwise (a CSV holding only its header row is such a table); a constructor cannot return that error, so these cases are preconditions.
- VizUtils.SimilaritySearch.FindKnnItems: the query point is the row of its territory; a query row that pandas returns as several rows is not modelled.
- ImageGrid.GetImageGrid: a model with fewer hits than the first leaves the rest of its column blank. One with more hits is cropped. The model states where the pastes go, not which pixels survive cropping.
- Batching.CeilDiv: `math.ceil(n / bs)` is computed on exact rationals, so float rounding of very large counts is not modelled.
- Batching.MySequence.GetItem: loading and resizing an image is the parameter `load`; the array stacking of `np.asarray` is not modelled.
- Batching.BottleneckFeatures: assumes every batch gives rows of the same width. `pd.concat` of frames with differing columns is not modelled.
- Text.Title: only ASCII letters change case. Every character above U+007F is treated as a lower-case letter with no upper-case form: it counts as cased, so the letter after it is lowered, and it is itself left unchanged. Full Unicode case mapping is not modelled; this is enough for the flag names ("Côte").
