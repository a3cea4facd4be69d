/** The similarity search of `Visualisation/viz_utils.py`: feature tables
    loaded per model, a nearest-neighbour index and a similarity table made
    from each, and searches that rank every territory against a query
    territory. The numerics are parameters: `readCsv` stands for
    `pd.read_csv`, `cosine` for sklearn's `cosine_similarity`, `kneighbors`
    for a fitted `NearestNeighbors` query and `sortDesc` for the order
    `sort_values(ascending=False)` puts a column in. */
module VizUtils {
  import opened Wrappers
  import opened Sequences
  import opened PyDicts
  import Paths

  /** A feature CSV read with `index_col=("filename", "territory_name")`:
      one `(filename, territory_name)` label and one feature row per image. */
  datatype FeatureTable = FeatureTable(index: seq<(string, string)>, values: seq<seq<real>>)
  {
    predicate Valid() {
      |values| == |index|
    }

    /** `loc(axis=0)[pd.IndexSlice[:, name]].values` for a table whose
        territory names are distinct: the row of the territory `name`,
        `KeyError` when no row has it. */
    function Row(name: string): (r: Option<seq<real>>)
      requires Valid() && Unique(Territories(index))
      ensures r.Some? <==> exists i :: 0 <= i < |index| && index[i].1 == name
      ensures r.Some? ==> exists i :: 0 <= i < |index| && index[i].1 == name && r.value == values[i]
    {
      match Position(Territories(index), name)
      case None => None
      case Some(i) => Some(values[i])
    }
  }

  /** `NearestNeighbors(n_neighbors=k, metric="cosine")` fitted on a table's
      rows. */
  datatype KnnIndex = KnnIndex(nNeighbors: int, points: seq<seq<real>>)

  /** A similarity table: rows labelled like the feature table, columns by
      territory name, `values[i][j]` the similarity of rows `i` and `j`. */
  datatype SimFrame = SimFrame(index: seq<(string, string)>, columns: seq<string>, values: seq<seq<real>>)

  /** One search hit: `[filename, territory_name, score]`. */
  datatype Match = Match(filename: string, territoryName: string, score: real)

  /** The two kinds of search. */
  datatype QueryType = Knn | Cosine

  /** The `assert queryType in ["knn", "cosine"]` of `search`. */
  function ParseQueryType(queryType: string): (r: Option<QueryType>)
    ensures r == Some(Knn) <==> queryType == "knn"
    ensures r == Some(Cosine) <==> queryType == "cosine"
    ensures r.None? <==> queryType != "knn" && queryType != "cosine"
  {
    if queryType == "knn" then Some(Knn)
    else if queryType == "cosine" then Some(Cosine)
    else None
  }

  /** Why a search raises. */
  datatype SearchError =
    | InvalidQueryType  // the `assert queryType in ["knn", "cosine"]`
    | UnknownName       // `KeyError` from looking the query territory up

  /** `index.get_level_values("territory_name")`. */
  function Territories(index: seq<(string, string)>): (r: seq<string>)
    ensures |r| == |index| && forall i :: 0 <= i < |index| ==> r[i] == index[i].1
  {
    seq(|index|, i requires 0 <= i < |index| => index[i].1)
  }

  /** Where `name` first occurs in `names`. */
  function Position(names: seq<string>, name: string): (r: Option<nat>)
    ensures r.None? <==> name !in names
    ensures r.Some? ==> r.value < |names| && names[r.value] == name &&
                        forall i :: 0 <= i < r.value ==> names[i] != name
  {
    if names == [] then None
    else if names[0] == name then Some(0)
    else match Position(names[1..], name)
      case None => None
      case Some(i) => Some(i + 1)
  }

  predicate Unique(names: seq<string>) {
    forall i, j :: 0 <= i < j < |names| ==> names[i] != names[j]
  }

  /** `cosine` maps `N` rows to an `N` by `N` table. */
  ghost predicate IsSimilarity(cosine: seq<seq<real>> -> seq<seq<real>>) {
    (forall rows :: |cosine(rows)| == |rows|) &&
    (forall rows, i :: 0 <= i < |cosine(rows)| ==> |cosine(rows)[i]| == |rows|)
  }

  /** Each CSV path paired with its table, under the path's file stem. */
  function TableItems(csvs: seq<string>, readCsv: string -> FeatureTable): (items: seq<(string, FeatureTable)>)
    ensures |items| == |csvs|
  {
    seq(|csvs|, i requires 0 <= i < |csvs| => (Paths.Stem(csvs[i]), readCsv(csvs[i])))
  }

  /** The first loop of `__init__`: each CSV's table stored under its file
      stem, in file order. */
  function LoadTables(csvs: seq<string>, readCsv: string -> FeatureTable): (d: Dict<string, FeatureTable>)
    ensures d.Valid()
  {
    FromItems(TableItems(csvs, readCsv))
  }

  /** Exactly the files' stems become feature-set names. */
  lemma LoadTablesNames(csvs: seq<string>, readCsv: string -> FeatureTable, name: string)
    ensures name in LoadTables(csvs, readCsv).entries <==>
            exists i :: 0 <= i < |csvs| && Paths.Stem(csvs[i]) == name
  {
    var items := TableItems(csvs, readCsv);
    FromItemsHas(items, name);
    if exists i :: 0 <= i < |csvs| && Paths.Stem(csvs[i]) == name {
      var i :| 0 <= i < |csvs| && Paths.Stem(csvs[i]) == name;
      assert items[i].0 == name;
    }
  }

  /** A feature set holds the table of the last file with its stem: a later
      file with the same stem replaces an earlier one's table. */
  lemma LoadTablesLast(csvs: seq<string>, readCsv: string -> FeatureTable, i: int)
    requires 0 <= i < |csvs|
    requires forall j :: i < j < |csvs| ==> Paths.Stem(csvs[j]) != Paths.Stem(csvs[i])
    ensures Paths.Stem(csvs[i]) in LoadTables(csvs, readCsv).entries
    ensures LoadTables(csvs, readCsv).entries[Paths.Stem(csvs[i])] == readCsv(csvs[i])
  {
    FromItemsLast(TableItems(csvs, readCsv), i);
  }

  /** The similarity table of one feature table. */
  function SimilarityFrame(table: FeatureTable, cosine: seq<seq<real>> -> seq<seq<real>>): SimFrame {
    SimFrame(table.index, Territories(table.index), cosine(table.values))
  }

  /** For `N` rows the similarity table is `N` by `N`, rows labelled as in
      the feature table and columns by the same rows' territory names. */
  lemma SimilarityFrameShape(table: FeatureTable, cosine: seq<seq<real>> -> seq<seq<real>>)
    requires table.Valid() && IsSimilarity(cosine)
    ensures var frame := SimilarityFrame(table, cosine);
            frame.index == table.index &&
            |frame.columns| == |table.index| &&
            (forall i :: 0 <= i < |table.index| ==> frame.columns[i] == table.index[i].1) &&
            |frame.values| == |table.index| &&
            forall i :: 0 <= i < |table.index| ==> |frame.values[i]| == |table.index|
  {
  }

  /** `read_csv` gives one label per feature row. */
  ghost predicate ReadsTables(readCsv: string -> FeatureTable) {
    forall f :: readCsv(f).Valid()
  }

  /** `rows` is `n` by `n`. */
  predicate Square(rows: seq<seq<real>>, n: nat) {
    |rows| == n && forall i :: 0 <= i < n ==> |rows[i]| == n
  }

  lemma LoadedTablesValid(csvs: seq<string>, readCsv: string -> FeatureTable, name: string)
    requires ReadsTables(readCsv) && name in LoadTables(csvs, readCsv).entries
    ensures LoadTables(csvs, readCsv).entries[name].Valid()
  {
    FromItemsValue(TableItems(csvs, readCsv), name);
  }

  /** `kneighbors` answers like a `NearestNeighbors` index fitted on at
      least `n_neighbors` rows: that many row numbers, nearest first. */
  ghost predicate IsNeighbourQuery(kneighbors: (KnnIndex, seq<real>) -> seq<(int, real)>) {
    forall index: KnnIndex, query: seq<real> :: 1 <= index.nNeighbors <= |index.points| ==>
      |kneighbors(index, query)| == index.nNeighbors &&
      (forall i :: 0 <= i < index.nNeighbors ==> 0 <= kneighbors(index, query)[i].0 < |index.points|) &&
      (forall i, j :: 0 <= i < j < index.nNeighbors ==> kneighbors(index, query)[i].1 <= kneighbors(index, query)[j].1)
  }

  /** `p` lists each of `0 .. n-1` once. */
  predicate IsPermutation(p: seq<int>, n: nat) {
    |p| == n && (forall i :: 0 <= i < n ==> 0 <= p[i] < n) &&
    (forall i, j :: 0 <= i < j < n ==> p[i] != p[j]) &&
    (forall v :: 0 <= v < n ==> v in p)
  }

  /** `order` visits the rows of `col` from the largest value down; among
      equal values in any order. */
  predicate SortedDescending(col: seq<real>, order: seq<int>) {
    IsPermutation(order, |col|) &&
    forall i, j :: 0 <= i < j < |col| ==> col[order[i]] >= col[order[j]]
  }

  /** `sortDesc` orders every column as `sort_values(ascending=False)` does. */
  ghost predicate IsDescendingSort(sortDesc: seq<real> -> seq<int>) {
    forall col :: SortedDescending(col, sortDesc(col))
  }

  /** Column `j` of a table whose rows all reach it. */
  function Column(rows: seq<seq<real>>, j: nat): (col: seq<real>)
    requires forall i :: 0 <= i < |rows| ==> j < |rows[i]|
    ensures |col| == |rows| && forall i :: 0 <= i < |rows| ==> col[i] == rows[i][j]
  {
    seq(|rows|, i requires 0 <= i < |rows| => rows[i][j])
  }

  /** `(1 - col.sort_values(ascending=False).head(k)).reset_index()`: the
      first `k` rows in `order`, labelled, with score one minus similarity. */
  function TopMatches(index: seq<(string, string)>, col: seq<real>, order: seq<int>, k: int): (r: seq<Match>)
    requires |index| == |col| && IsPermutation(order, |col|)
  {
    var top := PySlice(order, 0, k);
    seq(|top|, i requires 0 <= i < |top| => Match(index[top[i]].0, index[top[i]].1, 1.0 - col[top[i]]))
  }

  /** `head(k)` keeps the first `k` rows of the order (all but the last
      `-k` for a negative `k`), each labelled with its own row's names and
      scored one minus its similarity. */
  lemma TopMatchesRows(index: seq<(string, string)>, col: seq<real>, order: seq<int>, k: int)
    requires |index| == |col| && IsPermutation(order, |col|)
    ensures var r := TopMatches(index, col, order, k);
            |r| == SliceBound(k, |col|) &&
            forall i :: 0 <= i < |r| ==>
              r[i] == Match(index[order[i]].0, index[order[i]].1, 1.0 - col[order[i]])
  {
  }

  /** Scores never decrease down the list. */
  lemma TopMatchesAscending(index: seq<(string, string)>, col: seq<real>, order: seq<int>, k: int)
    requires |index| == |col| && SortedDescending(col, order)
    ensures var r := TopMatches(index, col, order, k);
            forall i, j :: 0 <= i < j < |r| ==> r[i].score <= r[j].score
  {
    TopMatchesRows(index, col, order, k);
  }

  /** Every row left out is at most as similar as every row kept. */
  lemma TopMatchesTopK(index: seq<(string, string)>, col: seq<real>, order: seq<int>, k: int, row: int)
    requires |index| == |col| && SortedDescending(col, order)
    requires 0 <= row < |col| && row !in order[..SliceBound(k, |col|)]
    ensures forall i :: 0 <= i < SliceBound(k, |col|) ==> col[row] <= col[order[i]]
  {
    var m := PositionOf(order, row, |col|);
    assert m >= SliceBound(k, |col|);
  }

  /** No hit of `r` is labelled with the territory `name`. */
  predicate Omits(r: seq<Match>, name: string) {
    forall h :: 0 <= h < |r| ==> r[h].territoryName != name
  }

  /** Stated on the hits alone: a row whose territory is not among the hits
      is at most as similar as every hit, whose similarity is one minus its
      score. */
  lemma TopMatchesOmitted(index: seq<(string, string)>, col: seq<real>, order: seq<int>, k: int)
    requires |index| == |col| && SortedDescending(col, order)
    ensures var r := TopMatches(index, col, order, k);
            forall row, i :: 0 <= row < |col| && 0 <= i < |r| && Omits(r, index[row].1) ==>
              col[row] <= 1.0 - r[i].score
  {
    var r := TopMatches(index, col, order, k);
    var kept := SliceBound(k, |col|);
    TopMatchesRows(index, col, order, k);
    forall row | 0 <= row < |col| && Omits(r, index[row].1)
      ensures forall i :: 0 <= i < |r| ==> col[row] <= 1.0 - r[i].score
    {
      forall m | 0 <= m < kept
        ensures order[m] != row
      {
        assert r[m].territoryName == index[order[m]].1;
      }
      TopMatchesTopK(index, col, order, k, row);
    }
  }

  /** `m` is some row's labels, scored one minus that row's similarity to
      column `q`. */
  predicate ScoredRow(frame: SimFrame, q: nat, m: Match) {
    exists row :: 0 <= row < |frame.index| && row < |frame.values| && q < |frame.values[row]| &&
      m == Match(frame.index[row].0, frame.index[row].1, 1.0 - frame.values[row][q])
  }

  /** `hits` answer a similarity query on column `q` of `frame`: scores
      never decrease, no territory is named twice, each hit is some row's
      labels scored one minus that row's similarity, and a row whose
      territory is not among the hits is at most as similar as every hit. */
  predicate RankedHits(frame: SimFrame, q: nat, hits: seq<Match>) {
    (forall i, j :: 0 <= i < j < |hits| ==> hits[i].score <= hits[j].score) &&
    (forall i, j :: 0 <= i < j < |hits| ==> hits[i].territoryName != hits[j].territoryName) &&
    (forall i :: 0 <= i < |hits| ==> ScoredRow(frame, q, hits[i])) &&
    (forall row, i ::
       (0 <= row < |frame.index| && row < |frame.values| && q < |frame.values[row]| &&
        0 <= i < |hits| && Omits(hits, frame.index[row].1)) ==>
         frame.values[row][q] <= 1.0 - hits[i].score)
  }

  /** Rows that name each territory once give hits that do too. */
  lemma TopMatchesDistinct(index: seq<(string, string)>, col: seq<real>, order: seq<int>, k: int)
    requires |index| == |col| && IsPermutation(order, |col|) && Unique(Territories(index))
    ensures var r := TopMatches(index, col, order, k);
            forall i, j :: 0 <= i < j < |r| ==> r[i].territoryName != r[j].territoryName
  {
    var r := TopMatches(index, col, order, k);
    TopMatchesRows(index, col, order, k);
    forall i, j | 0 <= i < j < |r|
      ensures r[i].territoryName != r[j].territoryName
    {
      var a, b := order[i], order[j];
      assert a != b;
      if a < b {
        assert Territories(index)[a] != Territories(index)[b];
      } else {
        assert Territories(index)[b] != Territories(index)[a];
      }
    }
  }

  /** The first `k` rows of column `q` in descending order answer the query. */
  lemma TopMatchesRanked(frame: SimFrame, q: nat, order: seq<int>, k: int)
    requires |frame.values| == |frame.index| && forall i :: 0 <= i < |frame.values| ==> q < |frame.values[i]|
    requires Unique(Territories(frame.index))
    requires SortedDescending(Column(frame.values, q), order)
    ensures RankedHits(frame, q, TopMatches(frame.index, Column(frame.values, q), order, k))
  {
    var col := Column(frame.values, q);
    var r := TopMatches(frame.index, col, order, k);
    TopMatchesRows(frame.index, col, order, k);
    TopMatchesAscending(frame.index, col, order, k);
    TopMatchesDistinct(frame.index, col, order, k);
    TopMatchesOmitted(frame.index, col, order, k);
    forall i | 0 <= i < |r|
      ensures ScoredRow(frame, q, r[i])
    {
      var row := order[i];
      assert 0 <= row < |frame.index| && row < |frame.values| && q < |frame.values[row]|;
      assert r[i] == Match(frame.index[row].0, frame.index[row].1, 1.0 - frame.values[row][q]);
    }
    assert RankedHits(frame, q, r);
  }

  /** Where `row` sits in the permutation `order`. */
  lemma PositionOf(order: seq<int>, row: int, n: nat) returns (m: int)
    requires IsPermutation(order, n) && 0 <= row < n
    ensures 0 <= m < n && order[m] == row
  {
    assert row in order;
    m :| 0 <= m < |order| && order[m] == row;
  }

  /** When the query's own row is strictly the most similar to it, that row
      comes first. */
  lemma TopMatchesSelfFirst(index: seq<(string, string)>, col: seq<real>, order: seq<int>, k: int, q: int)
    requires |index| == |col| && SortedDescending(col, order) && SliceBound(k, |col|) >= 1
    requires 0 <= q < |col| && forall x :: 0 <= x < |col| && x != q ==> col[x] < col[q]
    ensures var r := TopMatches(index, col, order, k);
            |r| >= 1 && r[0] == Match(index[q].0, index[q].1, 1.0 - col[q]) &&
            (col[q] == 1.0 ==> r[0].score == 0.0)
  {
    TopMatchesRows(index, col, order, k);
    var m := PositionOf(order, q, |col|);
  }

  class SimilaritySearch {
    const csvFilelist: seq<string>
    const knnK: int
    /** The bottleneck-feature tables, one per model. */
    var featureDfs: Dict<string, FeatureTable>
    var knn: Dict<string, KnnIndex>
    /** The pre-computed similarity tables. */
    var cosineSimDFs: Dict<string, SimFrame>

    /** The model `name` has its table loaded, its neighbour index fitted
        on the table's rows and its similarity table made from them. */
    predicate Fitted(name: string)
      reads this
    {
      name in featureDfs.entries && name in knn.entries && name in cosineSimDFs.entries &&
      var table := featureDfs.entries[name];
      table.Valid() &&
      knn.entries[name] == KnnIndex(knnK, table.values) &&
      cosineSimDFs.entries[name].index == table.index &&
      cosineSimDFs.entries[name].columns == Territories(table.index) &&
      Square(cosineSimDFs.entries[name].values, |table.index|)
    }

    /** The three dictionaries share their keys, in the same order, and
        every model is fitted. */
    predicate Valid()
      reads this
    {
      featureDfs.Valid() && knn.Valid() && cosineSimDFs.Valid() &&
      knn.keys == featureDfs.keys && cosineSimDFs.keys == featureDfs.keys &&
      forall name :: name in featureDfs.entries ==> Fitted(name)
    }

    /** `__init__`, given the list `glob(data_dir)` returned. Fitting the
        index and computing the similarities raise for a table without rows,
        and the fit raises for `knnK < 1`. */
    constructor (csvFilelist: seq<string>, knnK: int, readCsv: string -> FeatureTable,
                 cosine: seq<seq<real>> -> seq<seq<real>>)
      requires knnK >= 1 || csvFilelist == []
      requires forall name :: name in LoadTables(csvFilelist, readCsv).entries ==>
                 |LoadTables(csvFilelist, readCsv).entries[name].index| > 0
      requires ReadsTables(readCsv) && IsSimilarity(cosine)
      ensures Valid()
      ensures this.csvFilelist == csvFilelist && this.knnK == knnK
      ensures featureDfs == LoadTables(csvFilelist, readCsv)
      ensures forall name :: name in cosineSimDFs.entries ==>
                name in featureDfs.entries &&
                cosineSimDFs.entries[name] == SimilarityFrame(featureDfs.entries[name], cosine)
    {
      this.csvFilelist := csvFilelist;
      this.knnK := knnK;
      featureDfs := Empty();
      knn := Empty();
      cosineSimDFs := Empty();
      new;
      LoadFeatures(readCsv);
      FitNeighbours();
      PrecomputeSimilarity(cosine);
    }

    /** The first loop of `__init__`: a table per CSV file. */
    method LoadFeatures(readCsv: string -> FeatureTable)
      requires ReadsTables(readCsv)
      modifies this
      ensures featureDfs == LoadTables(csvFilelist, readCsv)
      ensures forall name :: name in featureDfs.entries ==> featureDfs.entries[name].Valid()
      ensures knn == old(knn) && cosineSimDFs == old(cosineSimDFs)
    {
      featureDfs := Empty();
      var i := 0;
      while i < |csvFilelist|
        invariant 0 <= i <= |csvFilelist|
        invariant featureDfs == FromItems(TableItems(csvFilelist[..i], readCsv))
        invariant knn == old(knn) && cosineSimDFs == old(cosineSimDFs)
      {
        var f := csvFilelist[i];
        TableItemsSnoc(csvFilelist, readCsv, i);
        featureDfs := featureDfs.Set(Paths.Stem(f), readCsv(f));
        i := i + 1;
      }
      assert csvFilelist[..i] == csvFilelist;
      forall name | name in featureDfs.entries
        ensures featureDfs.entries[name].Valid()
      {
        LoadedTablesValid(csvFilelist, readCsv, name);
      }
    }

    /** Every feature set names each territory once. */
    predicate DistinctTerritories()
      reads this
    {
      forall name :: name in featureDfs.entries ==> Unique(Territories(featureDfs.entries[name].index))
    }

    /** Every feature set has at least `knnK` rows, and `knnK >= 2`: fewer
        rows make `kneighbors` raise, and one neighbour makes `squeeze()`
        return a scalar that `iloc` cannot label. */
    predicate KnnFits()
      reads this
    {
      forall name :: name in featureDfs.entries ==> 2 <= knnK <= |featureDfs.entries[name].index|
    }

    /** `find_knn_items`: the `knnK` rows nearest the query, nearest first,
        each labelled with its row's filename and territory and scored by
        its cosine distance. */
    function FindKnnItems(queryPoint: seq<real>, featureset: string,
                          kneighbors: (KnnIndex, seq<real>) -> seq<(int, real)>): (r: seq<Match>)
      reads this
      requires Fitted(featureset) && IsNeighbourQuery(kneighbors)
      requires 2 <= knnK <= |featureDfs.entries[featureset].index|
      ensures |r| == knnK
      ensures forall i, j :: 0 <= i < j < |r| ==> r[i].score <= r[j].score
      ensures forall i :: 0 <= i < |r| ==>
                var nb := kneighbors(knn.entries[featureset], queryPoint)[i];
                var table := featureDfs.entries[featureset];
                0 <= nb.0 < |table.index| &&
                r[i] == Match(table.index[nb.0].0, table.index[nb.0].1, nb.1)
    {
      var table := featureDfs.entries[featureset];
      var nb := kneighbors(knn.entries[featureset], queryPoint);
      seq(|nb|, i requires 0 <= i < |nb| => Match(table.index[nb[i].0].0, table.index[nb[i].0].1, nb[i].1))
    }

    /** `find_cosinesimilar_items`: the query territory's column of the
        similarity table, most similar rows first, cut to `knnK` rows and
        scored one minus similarity; `KeyError` for an unknown territory. */
    function FindCosinesimilarItems(queryPointName: string, featureset: string,
                                    sortDesc: seq<real> -> seq<int>): (r: Result<seq<Match>, SearchError>)
      reads this
      requires Fitted(featureset) && Unique(cosineSimDFs.entries[featureset].columns)
      requires IsDescendingSort(sortDesc)
      ensures r.Ok? <==> queryPointName in Territories(featureDfs.entries[featureset].index)
      ensures r.Err? ==> r.error == UnknownName
      ensures r.Ok? ==> |r.value| == SliceBound(knnK, |featureDfs.entries[featureset].index|)
      ensures r.Ok? ==>
                RankedHits(cosineSimDFs.entries[featureset],
                           Position(cosineSimDFs.entries[featureset].columns, queryPointName).value, r.value)
    {
      var frame := cosineSimDFs.entries[featureset];
      match Position(frame.columns, queryPointName)
      case None => Err(UnknownName)
      case Some(q) =>
        var col := Column(frame.values, q);
        var order := sortDesc(col);
        TopMatchesRows(frame.index, col, order, knnK);
        TopMatchesRanked(frame, q, order, knnK);
        Ok(TopMatches(frame.index, col, order, knnK))
    }

    /** The body of `search`'s loop for one model: its hits for the query
        territory, by nearest neighbours for `"knn"` and by the similarity
        table otherwise. */
    function Hits(featureset: string, queryPointName: string, queryType: QueryType,
                  kneighbors: (KnnIndex, seq<real>) -> seq<(int, real)>,
                  sortDesc: seq<real> -> seq<int>): (r: Result<seq<Match>, SearchError>)
      reads this
      requires Searchable(featureset, queryType)
      requires IsNeighbourQuery(kneighbors) && IsDescendingSort(sortDesc)
      ensures r.Ok? <==> queryPointName in Territories(featureDfs.entries[featureset].index)
      ensures r.Err? ==> r.error == UnknownName
      ensures queryType == Knn && r.Ok? ==>
                featureDfs.entries[featureset].Row(queryPointName).Some? &&
                r.value == FindKnnItems(featureDfs.entries[featureset].Row(queryPointName).value, featureset, kneighbors)
      ensures queryType == Cosine ==> r == FindCosinesimilarItems(queryPointName, featureset, sortDesc)
    {
      if queryType == Knn then
        match featureDfs.entries[featureset].Row(queryPointName)
        case None => Err(UnknownName)
        case Some(row) => Ok(FindKnnItems(row, featureset, kneighbors))
      else
        FindCosinesimilarItems(queryPointName, featureset, sortDesc)
    }

    /** The model `name` is fitted, names each territory once and, for a
        nearest-neighbour search, has at least `knnK >= 2` rows. */
    predicate Searchable(name: string, queryType: QueryType)
      reads this
    {
      Fitted(name) && Unique(Territories(featureDfs.entries[name].index)) &&
      (queryType == Knn ==> 2 <= knnK <= |featureDfs.entries[name].index|)
    }

    /** `search`: one list of hits per model, models in the order their
        feature sets were loaded. An unknown query type fails the assertion;
        a territory missing from any model raises `KeyError`, so no partial
        result is returned. */
    method Search(queryPointName: string, queryType: string,
                  kneighbors: (KnnIndex, seq<real>) -> seq<(int, real)>,
                  sortDesc: seq<real> -> seq<int>)
      returns (r: Result<Dict<string, seq<Match>>, SearchError>)
      requires Valid() && DistinctTerritories()
      requires IsNeighbourQuery(kneighbors) && IsDescendingSort(sortDesc)
      requires ParseQueryType(queryType) == Some(Knn) ==> KnnFits()
      ensures ParseQueryType(queryType).None? ==> r == Err(InvalidQueryType)
      ensures ParseQueryType(queryType).Some? ==>
                (r.Ok? <==> forall name :: name in featureDfs.entries ==>
                              queryPointName in Territories(featureDfs.entries[name].index))
      ensures ParseQueryType(queryType).Some? && r.Err? ==> r.error == UnknownName
      ensures r.Ok? ==> r.value.Valid() && r.value.keys == featureDfs.keys
      ensures r.Ok? ==>
                forall name :: name in r.value.entries ==>
                  Searchable(name, ParseQueryType(queryType).value) &&
                  Hits(name, queryPointName, ParseQueryType(queryType).value, kneighbors, sortDesc) ==
                    Ok(r.value.entries[name])
    {
      var kind := ParseQueryType(queryType);
      if kind.None? {
        return Err(InvalidQueryType);
      }
      var queryType := kind.value;
      var hitsOf := (name: string) reads this requires Searchable(name, queryType) =>
        Hits(name, queryPointName, queryType, kneighbors, sortDesc);
      r := FillFrom(featureDfs.keys, hitsOf);
    }

    /** The second loop of `__init__`: a neighbour index per feature set. */
    method FitNeighbours()
      requires featureDfs.Valid()
      modifies this
      ensures knn.Valid() && knn.keys == featureDfs.keys
      ensures forall name :: name in featureDfs.entries ==>
                name in knn.entries && knn.entries[name] == KnnIndex(knnK, featureDfs.entries[name].values)
      ensures featureDfs == old(featureDfs) && cosineSimDFs == old(cosineSimDFs)
    {
      var tables, keys := featureDfs.entries, featureDfs.keys;
      var fit := (name: string) => if name in tables then KnnIndex(knnK, tables[name].values) else KnnIndex(knnK, []);
      knn := Empty();
      var j := 0;
      while j < |keys|
        invariant 0 <= j <= |keys|
        invariant featureDfs == old(featureDfs) && cosineSimDFs == old(cosineSimDFs)
        invariant knn == FromItems(Keyed(keys, fit)[..j])
      {
        KeyedSnoc(keys, fit, j);
        knn := knn.Set(keys[j], fit(keys[j]));
        j := j + 1;
      }
      assert Keyed(keys, fit)[..j] == Keyed(keys, fit);
      FromKeyed(keys, fit);
    }

    /** The third loop of `__init__`: a similarity table per feature set. */
    method PrecomputeSimilarity(cosine: seq<seq<real>> -> seq<seq<real>>)
      requires featureDfs.Valid()
      modifies this
      ensures cosineSimDFs.Valid() && cosineSimDFs.keys == featureDfs.keys
      ensures forall name :: name in featureDfs.entries ==>
                name in cosineSimDFs.entries &&
                cosineSimDFs.entries[name] == SimilarityFrame(featureDfs.entries[name], cosine)
      ensures featureDfs == old(featureDfs) && knn == old(knn)
    {
      var tables, keys := featureDfs.entries, featureDfs.keys;
      var simFrame := (name: string) =>
        if name in tables then SimilarityFrame(tables[name], cosine) else SimFrame([], [], []);
      cosineSimDFs := Empty();
      var j := 0;
      while j < |keys|
        invariant 0 <= j <= |keys|
        invariant featureDfs == old(featureDfs) && knn == old(knn)
        invariant cosineSimDFs == FromItems(Keyed(keys, simFrame)[..j])
      {
        KeyedSnoc(keys, simFrame, j);
        cosineSimDFs := cosineSimDFs.Set(keys[j], simFrame(keys[j]));
        j := j + 1;
      }
      assert Keyed(keys, simFrame)[..j] == Keyed(keys, simFrame);
      FromKeyed(keys, simFrame);
    }
  }

  lemma TableItemsSnoc(csvs: seq<string>, readCsv: string -> FeatureTable, i: int)
    requires 0 <= i < |csvs|
    ensures TableItems(csvs[..i + 1], readCsv) ==
            TableItems(csvs[..i], readCsv) + [(Paths.Stem(csvs[i]), readCsv(csvs[i]))]
  {
  }
}
