/** The layout of `get_image_grid` in `Visualisation/viz_utils.py`: one
    column per model, the model's name on top, then a caption and a
    thumbnail for each hit. Drawing and image loading are not modelled:
    a tile records what is drawn or loaded, and a paste records where it
    goes. */
module ImageGrid {
  import opened Wrappers
  import opened PyDicts
  import VizUtils

  /** Height of every label box: the column header and each caption. */
  const LabelBoxHeight := 32

  /** What is pasted: a drawn label or a loaded thumbnail. */
  datatype Tile =
    | Header(modelName: string)                    // `draw_label(..., model_name, ..., 18)`
    | Caption(properName: string, score: real)     // `f"{a} [{b:0.3f}]"`, drawn at size 14
    | Thumbnail(filename: string)                  // `Image.open(os.path.join(img_dir, f))`

  /** `column_img.paste(tile, (0, y))`. */
  datatype Paste = Paste(tile: Tile, y: int)

  /** A white `thumbnail_size` by `grid_height` column, pasted into the grid
      at `(x, 0)`. */
  datatype Column = Column(x: int, pastes: seq<Paste>)

  /** The black `width` by `height` grid and its columns, in paste order. */
  datatype Grid = Grid(width: int, height: int, columns: seq<Column>)

  /** Why `get_image_grid` raises. */
  datatype GridError =
    | NoModels         // `IndexError` from `list_of_models[0]`
    | NegativeSize     // `ValueError` from `Image.new` with a negative side
    | NothingToUnpack  // `ValueError` from `zip(*matches)` on a model without hits

  /** `(n_models * thumbnail_size) + (n_models + 1) * spacing`. */
  function GridWidth(nModels: int, thumbnailSize: int, spacing: int): int {
    nModels * thumbnailSize + (nModels + 1) * spacing
  }

  /** `label_box_height + n_results_per_model * (thumbnail_size + label_box_height)`. */
  function GridHeight(nResults: int, thumbnailSize: int): int {
    LabelBoxHeight + nResults * (thumbnailSize + LabelBoxHeight)
  }

  /** Left edge of column `c`: one spacing, then `c` columns each followed
      by a spacing. */
  function ColumnX(c: int, thumbnailSize: int, spacing: int): int {
    spacing + c * (thumbnailSize + spacing)
  }

  /** Top of the caption of hit `r`: below the header and `r` earlier
      caption and thumbnail pairs. */
  function RowY(r: int, thumbnailSize: int): int {
    LabelBoxHeight + r * (thumbnailSize + LabelBoxHeight)
  }

  /** The caption and thumbnail of each hit, in order. */
  function RowPastes(matches: seq<VizUtils.Match>, thumbnailSize: int): (p: seq<Paste>)
    ensures |p| == 2 * |matches|
  {
    if matches == [] then []
    else
      var n := |matches| - 1;
      var m := matches[n];
      RowPastes(matches[..n], thumbnailSize) +
      [Paste(Caption(m.territoryName, m.score), RowY(n, thumbnailSize)),
       Paste(Thumbnail(m.filename), RowY(n, thumbnailSize) + LabelBoxHeight)]
  }

  /** Hit `r`'s caption is the `2r`-th row paste, at `RowY(r)`, and its
      thumbnail the next, one label box lower. */
  lemma {:induction false} RowPastesAt(matches: seq<VizUtils.Match>, thumbnailSize: int, r: int)
    requires 0 <= r < |matches|
    ensures RowPastes(matches, thumbnailSize)[2 * r] ==
              Paste(Caption(matches[r].territoryName, matches[r].score), RowY(r, thumbnailSize))
    ensures RowPastes(matches, thumbnailSize)[2 * r + 1] ==
              Paste(Thumbnail(matches[r].filename), RowY(r, thumbnailSize) + LabelBoxHeight)
  {
    var n := |matches| - 1;
    if r < n {
      var init := matches[..n];
      RowPastesAt(init, thumbnailSize, r);
      assert init[r] == matches[r];
    }
  }

  /** One model's column: its header at the top, then its hits. */
  function ColumnPastes(modelName: string, matches: seq<VizUtils.Match>, thumbnailSize: int): seq<Paste> {
    [Paste(Header(modelName), 0)] + RowPastes(matches, thumbnailSize)
  }

  /** The columns of the models `names`, left to right. */
  function Columns(names: seq<string>, results: map<string, seq<VizUtils.Match>>,
                   thumbnailSize: int, spacing: int): (cs: seq<Column>)
    requires forall i :: 0 <= i < |names| ==> names[i] in results
    ensures |cs| == |names|
    ensures forall c :: 0 <= c < |names| ==>
              cs[c] == Column(ColumnX(c, thumbnailSize, spacing),
                              ColumnPastes(names[c], results[names[c]], thumbnailSize))
  {
    seq(|names|, c requires 0 <= c < |names| =>
      Column(ColumnX(c, thumbnailSize, spacing), ColumnPastes(names[c], results[names[c]], thumbnailSize)))
  }

  /** How far a paste reaches down: a label box, or a thumbnail that is
      `thumbnail_size` high. */
  function TileHeight(tile: Tile, thumbnailSize: int): int {
    if tile.Thumbnail? then thumbnailSize else LabelBoxHeight
  }

  /** Each paste in a column starts where the one before it ends: the
      column tracker moves down by exactly the height of what was pasted.
      Paste `0` is the header, and hit `r` has its caption at `1 + 2r` and
      its thumbnail at `2 + 2r`. */
  lemma PastesAbut(modelName: string, matches: seq<VizUtils.Match>, thumbnailSize: int, r: int)
    requires 0 <= r < |matches|
    ensures var p := ColumnPastes(modelName, matches, thumbnailSize);
            p[0].y + TileHeight(p[0].tile, thumbnailSize) == p[1].y &&
            p[1 + 2 * r].y + TileHeight(p[1 + 2 * r].tile, thumbnailSize) == p[2 + 2 * r].y &&
            (r + 1 < |matches| ==>
               p[2 + 2 * r].y + TileHeight(p[2 + 2 * r].tile, thumbnailSize) == p[3 + 2 * r].y)
  {
    var p := ColumnPastes(modelName, matches, thumbnailSize);
    assert p[1..] == RowPastes(matches, thumbnailSize);
    RowPastesAt(matches, thumbnailSize, 0);
    RowPastesAt(matches, thumbnailSize, r);
    if r + 1 < |matches| {
      RowPastesAt(matches, thumbnailSize, r + 1);
      assert (r + 1) * (thumbnailSize + LabelBoxHeight) ==
             r * (thumbnailSize + LabelBoxHeight) + (thumbnailSize + LabelBoxHeight);
    }
  }

  /** With a non-negative thumbnail size, a column holding `n` hits fits a
      grid sized for `n` hits: the header and every caption and thumbnail
      lie between the top and the bottom, and the last thumbnail ends
      exactly at the bottom. */
  lemma ColumnFits(modelName: string, matches: seq<VizUtils.Match>, thumbnailSize: int, r: int)
    requires thumbnailSize >= 0 && 0 <= r < |matches|
    ensures var p := ColumnPastes(modelName, matches, thumbnailSize);
            var height := GridHeight(|matches|, thumbnailSize);
            p[0].y == 0 && TileHeight(p[0].tile, thumbnailSize) <= height &&
            0 <= p[1 + 2 * r].y && p[1 + 2 * r].y + TileHeight(p[1 + 2 * r].tile, thumbnailSize) <= height &&
            0 <= p[2 + 2 * r].y && p[2 + 2 * r].y + TileHeight(p[2 + 2 * r].tile, thumbnailSize) <= height &&
            (r == |matches| - 1 ==> p[2 + 2 * r].y + TileHeight(p[2 + 2 * r].tile, thumbnailSize) == height)
  {
    var p := ColumnPastes(modelName, matches, thumbnailSize);
    assert p[1..] == RowPastes(matches, thumbnailSize);
    RowPastesAt(matches, thumbnailSize, r);
    var step := thumbnailSize + LabelBoxHeight;
    MulMonotonic(r + 1, |matches|, step);
    MulMonotonic(0, r, step);
    assert (r + 1) * step == r * step + step;
  }

  /** A model with more hits than the first model puts the extra hits
      below the bottom of the grid, where the paste crops them away. */
  lemma ExtraRowsHidden(modelName: string, matches: seq<VizUtils.Match>, thumbnailSize: int,
                        nResults: nat, r: int)
    requires thumbnailSize >= 0 && nResults <= r < |matches|
    ensures var p := ColumnPastes(modelName, matches, thumbnailSize);
            p[1 + 2 * r].y >= GridHeight(nResults, thumbnailSize) &&
            p[2 + 2 * r].y >= GridHeight(nResults, thumbnailSize)
  {
    var p := ColumnPastes(modelName, matches, thumbnailSize);
    assert p[1..] == RowPastes(matches, thumbnailSize);
    RowPastesAt(matches, thumbnailSize, r);
    MulMonotonic(nResults, r, thumbnailSize + LabelBoxHeight);
  }

  /** Columns sit `spacing` apart, and the last one leaves `spacing` before
      the right edge of the grid. */
  lemma ColumnEdges(nModels: nat, c: int, thumbnailSize: int, spacing: int)
    requires 0 <= c < nModels
    ensures ColumnX(c, thumbnailSize, spacing) + thumbnailSize + spacing == ColumnX(c + 1, thumbnailSize, spacing)
    ensures c == nModels - 1 ==>
              ColumnX(c, thumbnailSize, spacing) + thumbnailSize + spacing == GridWidth(nModels, thumbnailSize, spacing)
  {
    assert (c + 1) * (thumbnailSize + spacing) == c * (thumbnailSize + spacing) + (thumbnailSize + spacing);
  }

  /** `get_image_grid`: the grid is sized from the number of models and
      the first model's number of hits, and each model's column is filled
      from the top and pasted one spacing after the previous column. */
  method GetImageGrid(searchResults: Dict<string, seq<VizUtils.Match>>, thumbnailSize: int, spacing: int)
    returns (r: Result<Grid, GridError>)
    requires searchResults.Valid()
    ensures searchResults.keys == [] <==> r == Err(NoModels)
    ensures searchResults.keys != [] ==>
              var width := GridWidth(|searchResults.keys|, thumbnailSize, spacing);
              var height := GridHeight(|searchResults.entries[searchResults.keys[0]]|, thumbnailSize);
              (r == Err(NegativeSize) <==> width < 0 || height < 0 || thumbnailSize < 0) &&
              (r == Err(NothingToUnpack) <==>
                 width >= 0 && height >= 0 && thumbnailSize >= 0 &&
                 exists i :: 0 <= i < |searchResults.keys| && searchResults.entries[searchResults.keys[i]] == []) &&
              (r.Ok? ==> r.value == Grid(width, height, Columns(searchResults.keys, searchResults.entries,
                                                                thumbnailSize, spacing)))
  {
    var models := searchResults.keys;
    if |models| == 0 {
      return Err(NoModels);
    }
    var nModels := |models|;
    var nResults := |searchResults.entries[models[0]]|;
    var gridWidth := nModels * thumbnailSize + (nModels + 1) * spacing;
    var gridHeight := LabelBoxHeight + nResults * (thumbnailSize + LabelBoxHeight);
    if gridWidth < 0 || gridHeight < 0 {
      return Err(NegativeSize);
    }
    var columns := PasteColumns(models, searchResults.entries, thumbnailSize, spacing);
    if columns.Err? {
      return Err(columns.error);
    }
    return Ok(Grid(gridWidth, gridHeight, columns.value));
  }

  /** The outer loop of `get_image_grid`: for each model in turn, a new
      column (which fails for a negative thumbnail size), its hits unpacked
      (which fails when there are none) and the column placed one spacing
      after the previous one. */
  method PasteColumns(models: seq<string>, results: map<string, seq<VizUtils.Match>>,
                      thumbnailSize: int, spacing: int)
    returns (r: Result<seq<Column>, GridError>)
    requires models != [] && forall i :: 0 <= i < |models| ==> models[i] in results
    ensures r == Err(NegativeSize) <==> thumbnailSize < 0
    ensures r == Err(NothingToUnpack) <==>
              thumbnailSize >= 0 && exists i :: 0 <= i < |models| && results[models[i]] == []
    ensures r.Err? ==> r.error != NoModels
    ensures r.Ok? ==> r.value == Columns(models, results, thumbnailSize, spacing)
  {
    var columns: seq<Column> := [];
    var gridTracker := spacing;
    var j := 0;
    while j < |models|
      invariant 0 <= j <= |models|
      invariant gridTracker == ColumnX(j, thumbnailSize, spacing)
      invariant columns == Columns(models[..j], results, thumbnailSize, spacing)
      invariant j > 0 ==> thumbnailSize >= 0
      invariant forall i :: 0 <= i < j ==> results[models[i]] != []
    {
      if thumbnailSize < 0 {
        return Err(NegativeSize);
      }
      var matches := results[models[j]];
      if matches == [] {
        return Err(NothingToUnpack);
      }
      var pastes := FillColumn(models[j], matches, thumbnailSize);
      assert models[..j + 1] == models[..j] + [models[j]];
      columns := columns + [Column(gridTracker, pastes)];
      gridTracker := gridTracker + thumbnailSize + spacing;
      assert gridTracker == ColumnX(j + 1, thumbnailSize, spacing) by {
        assert (j + 1) * (thumbnailSize + spacing) == j * (thumbnailSize + spacing) + (thumbnailSize + spacing);
      }
      j := j + 1;
    }
    assert models[..j] == models;
    return Ok(columns);
  }

  /** The inner loop of `get_image_grid`: the header before the first hit,
      then a caption and a thumbnail per hit, each pasted where the
      previous one ended. */
  method FillColumn(modelName: string, matches: seq<VizUtils.Match>, thumbnailSize: int)
    returns (pastes: seq<Paste>)
    requires matches != []
    ensures pastes == ColumnPastes(modelName, matches, thumbnailSize)
  {
    pastes := [];
    var columnTracker := 0;
    var idx := 0;
    while idx < |matches|
      invariant 0 <= idx <= |matches|
      invariant columnTracker == if idx == 0 then 0 else RowY(idx, thumbnailSize)
      invariant pastes == if idx == 0 then [] else ColumnPastes(modelName, matches[..idx], thumbnailSize)
    {
      var m := matches[idx];
      if idx == 0 {
        pastes := pastes + [Paste(Header(modelName), columnTracker)];
        columnTracker := columnTracker + LabelBoxHeight;
      }
      pastes := pastes + [Paste(Caption(m.territoryName, m.score), columnTracker)];
      columnTracker := columnTracker + LabelBoxHeight;
      pastes := pastes + [Paste(Thumbnail(m.filename), columnTracker)];
      columnTracker := columnTracker + thumbnailSize;
      assert columnTracker == RowY(idx + 1, thumbnailSize) by {
        assert (idx + 1) * (thumbnailSize + LabelBoxHeight) ==
               idx * (thumbnailSize + LabelBoxHeight) + (thumbnailSize + LabelBoxHeight);
      }
      assert matches[..idx + 1][..idx] == matches[..idx];
      idx := idx + 1;
    }
    assert matches[..idx] == matches;
  }
}
