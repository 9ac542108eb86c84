/** The row-count resolver and the column reader: what the combiner learns
    from one input file, and the columns it reads from a list of them. */
module ColumnReader {
  import opened FitsIo

  /** get_nimages: open the file, move to its second HDU, insist that it
      is a binary table, and give its row count. */
  function GetNImages<V>(fs: InputStore<V>, path: string): (r: Result<nat>)
    ensures r.Ok? <==> path in fs && fs[path].second == BinaryTable
    ensures r.Ok? ==> r.value == fs[path].nrows
    ensures path !in fs ==> r == Err(OpenFailed(path))
    ensures path in fs && fs[path].second == NoHdu ==> r == Err(NoTableHdu(path))
    ensures path in fs && fs[path].second in {ImageHdu, AsciiTable} ==> r == Err(NotBinaryTable(path))
  {
    if path !in fs then Err(OpenFailed(path))
    else if fs[path].second == NoHdu then Err(NoTableHdu(path))
    else if fs[path].second != BinaryTable then Err(NotBinaryTable(path))
    else Ok(fs[path].nrows)
  }

  /** get_column: the values of the named column, one per row of the
      file's table; a missing column is an error. */
  function GetColumn<V>(fs: InputStore<V>, path: string, column: string): (r: Result<seq<V>>)
    ensures r.Ok? <==> GetNImages(fs, path).Ok? && column in fs[path].columns
    ensures r.Ok? ==> |r.value| == GetNImages(fs, path).value
    ensures r.Ok? ==> r.value == fs[path].columns[column]
    ensures GetNImages(fs, path).Err? ==> r == Err(GetNImages(fs, path).error)
    ensures GetNImages(fs, path).Ok? && column !in fs[path].columns ==>
              r == Err(ColumnNotFound(path, column))
  {
    match GetNImages(fs, path)
    case Err(e) => Err(e)
    case Ok(nimages) =>
      var table := fs[path];
      if column !in table.columns then Err(ColumnNotFound(path, column))
      else Ok(table.columns[column][..nimages])
  }

  /** The column read from every file of the list, in order; the first
      file that cannot be read stops the reading. */
  function ReadColumns<V>(fs: InputStore<V>, files: seq<string>, column: string): (r: Result<seq<seq<V>>>)
    ensures r.Ok? <==> forall k :: 0 <= k < |files| ==> GetColumn(fs, files[k], column).Ok?
    ensures r.Ok? ==> |r.value| == |files|
    ensures r.Ok? ==> forall k :: 0 <= k < |files| ==> GetColumn(fs, files[k], column) == Ok(r.value[k])
    ensures r.Err? ==>
              exists k :: 0 <= k < |files| && GetColumn(fs, files[k], column) == Err(r.error) &&
                forall m :: 0 <= m < k ==> GetColumn(fs, files[m], column).Ok?
    decreases |files|
  {
    if files == [] then Ok([])
    else
      var front := files[..|files| - 1];
      assert forall k :: 0 <= k < |front| ==> front[k] == files[k];
      match ReadColumns(fs, front, column)
      case Err(e) => Err(e)
      case Ok(cols) =>
        match GetColumn(fs, files[|files| - 1], column)
        case Err(e) => Err(e)
        case Ok(c) => Ok(cols + [c])
  }
}
