/** The dimension planner: the object count and the epoch count shared by
    every cube of a run. */
module DimensionPlanner {
  import opened FitsIo
  import opened ColumnReader

  /** The shape of every cube: one column per object, one row per epoch. */
  datatype ImageDimensions = ImageDimensions(nobjects: nat, nimages: nat)

  /** The row count of every file of the list, in order; the first file
      whose row count cannot be read stops the run. */
  function RowCounts<V>(fs: InputStore<V>, files: seq<string>): (r: Result<seq<nat>>)
    ensures r.Ok? <==> forall k :: 0 <= k < |files| ==> GetNImages(fs, files[k]).Ok?
    ensures r.Ok? ==> |r.value| == |files|
    ensures r.Ok? ==> forall k :: 0 <= k < |files| ==> r.value[k] == fs[files[k]].nrows
    ensures r.Err? ==>
              exists k :: 0 <= k < |files| && GetNImages(fs, files[k]) == Err(r.error) &&
                forall m :: 0 <= m < k ==> GetNImages(fs, files[m]).Ok?
    decreases |files|
  {
    if files == [] then Ok([])
    else
      var front := files[..|files| - 1];
      assert forall k :: 0 <= k < |front| ==> front[k] == files[k];
      match RowCounts(fs, front)
      case Err(e) => Err(e)
      case Ok(sizes) =>
        match GetNImages(fs, files[|files| - 1])
        case Err(e) => Err(e)
        case Ok(n) => Ok(sizes + [n])
  }

  /** The largest element of a non-empty sequence. */
  function MaxElement(s: seq<nat>): (m: nat)
    requires |s| > 0
    ensures m in s
    ensures forall k :: 0 <= k < |s| ==> s[k] <= m
    decreases |s|
  {
    if |s| == 1 then s[0]
    else
      var front := MaxElement(s[..|s| - 1]);
      assert forall k :: 0 <= k < |s| - 1 ==> s[..|s| - 1][k] == s[k];
      if s[|s| - 1] <= front then front else s[|s| - 1]
  }

  /** compute_image_dimensions: the object count is the number of files and
      the epoch count the largest row count among them. An empty list reads
      no file and has no largest row count: it is EmptyFileList. */
  function ComputeImageDimensions<V>(fs: InputStore<V>, files: seq<string>): (r: Result<ImageDimensions>)
    ensures files == [] ==> r == Err(EmptyFileList)
    ensures r.Ok? <==> files != [] && forall k :: 0 <= k < |files| ==> GetNImages(fs, files[k]).Ok?
    ensures r.Ok? ==> r.value.nobjects == |files|
    ensures r.Ok? ==> forall k :: 0 <= k < |files| ==> fs[files[k]].nrows <= r.value.nimages
    ensures r.Ok? ==> exists k :: 0 <= k < |files| && fs[files[k]].nrows == r.value.nimages
    ensures r.Err? && files != [] ==>
              exists k :: 0 <= k < |files| && GetNImages(fs, files[k]) == Err(r.error) &&
                forall m :: 0 <= m < k ==> GetNImages(fs, files[m]).Ok?
  {
    match RowCounts(fs, files)
    case Err(e) => Err(e)
    case Ok(sizes) =>
      if sizes == [] then Err(EmptyFileList)
      else Ok(ImageDimensions(|files|, MaxElement(sizes)))
  }
}
