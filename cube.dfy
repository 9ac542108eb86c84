/** The cube writer: one named image HDU of shape [epochs x objects], whose
    column i holds the requested column of file i, right-padded with the
    missing-value sentinel. */
module CubeWriter {
  import opened FitsIo
  import opened ColumnReader

  function Max(a: int, b: int): int
  {
    if a >= b then a else b
  }

  // ---------------------------------------------------------------------
  // Padding

  /** The column right-padded with the sentinel to n values; a column that
      is already as long is kept whole. */
  function Padded<V>(column: seq<V>, n: nat, missing: V): (r: seq<V>)
    ensures |r| == Max(|column|, n)
    ensures r[..|column|] == column
    ensures forall k :: |column| <= k < |r| ==> r[k] == missing
  {
    if n <= |column| then column else column + seq(n - |column|, _ => missing)
  }

  /** The padding loop of create_image_hdu: push the sentinel until the
      column holds nimages values. */
  method PadColumn<V>(column: seq<V>, nimages: nat, missing: V) returns (data: seq<V>)
    ensures data == Padded(column, nimages, missing)
  {
    data := column;
    var j := |data|;
    while j < nimages
      invariant |column| <= j
      invariant j <= nimages || j == |column|
      invariant data == column + seq(j - |column|, _ => missing)
    {
      data := data + [missing];
      j := j + 1;
    }
  }

  // ---------------------------------------------------------------------
  // The cube a quantity's HDU holds

  /** What a cube holds at epoch j for the object whose column is given:
      the column's value while there is one, the sentinel after it. */
  function Cell<V>(column: seq<V>, j: nat, missing: V): V
  {
    if j < |column| then column[j] else missing
  }

  /** The cube built from the objects' columns, indexed [epoch][object]. */
  function Cube<V>(columns: seq<seq<V>>, nimages: nat, missing: V): (c: seq<seq<V>>)
    ensures |c| == nimages
    ensures forall j :: 0 <= j < nimages ==> |c[j]| == |columns|
  {
    seq(nimages, j requires 0 <= j => seq(|columns|, i requires 0 <= i < |columns| => Cell(columns[i], j, missing)))
  }

  /** Every row of the pixel block has the given width. */
  predicate Rectangular<V>(pixels: seq<seq<V>>, width: nat)
  {
    forall j :: 0 <= j < |pixels| ==> |pixels[j]| == width
  }

  /** Object i's column of a rectangular pixel block. */
  function ObjectColumn<V>(pixels: seq<seq<V>>, width: nat, i: nat): (col: seq<V>)
    requires Rectangular(pixels, width) && i < width
    ensures |col| == |pixels|
    ensures forall j :: 0 <= j < |pixels| ==> col[j] == pixels[j][i]
  {
    seq(|pixels|, j requires 0 <= j < |pixels| => pixels[j][i])
  }

  /** A column no longer than the cube appears in it whole, followed by
      exactly as many sentinels as it has fewer rows than the cube. */
  lemma CubeColumnIsPadded<V>(columns: seq<seq<V>>, nimages: nat, missing: V, i: nat)
    requires i < |columns| && |columns[i]| <= nimages
    ensures Rectangular(Cube(columns, nimages, missing), |columns|)
    ensures ObjectColumn(Cube(columns, nimages, missing), |columns|, i) == Padded(columns[i], nimages, missing)
    ensures ObjectColumn(Cube(columns, nimages, missing), |columns|, i)
            == columns[i] + seq(nimages - |columns[i]|, _ => missing)
  {
    var col := ObjectColumn(Cube(columns, nimages, missing), |columns|, i);
    var p := Padded(columns[i], nimages, missing);
    assert |col| == |p|;
    forall j | 0 <= j < nimages
      ensures col[j] == p[j]
    {
      if j < |columns[i]| {
        assert p[j] == p[..|columns[i]|][j];
      }
    }
  }

  /** The pixel type for a type code: TDOUBLE images hold DOUBLE_IMG
      pixels, TINT images LONG_IMG pixels, and no other code is supported. */
  function ImageType(typecode: int): (r: Result<Bitpix>)
    ensures r.Ok? <==> typecode == TDOUBLE || typecode == TINT
    ensures typecode == TDOUBLE ==> r == Ok(DoubleImg)
    ensures typecode == TINT ==> r == Ok(LongImg)
    ensures r.Err? ==> r.error == UnsupportedDataType(typecode)
  {
    if typecode == TDOUBLE then Ok(DoubleImg)
    else if typecode == TINT then Ok(LongImg)
    else Err(UnsupportedDataType(typecode))
  }

  /** The pixels the per-object loop of create_image_hdu leaves in an
      image of nimages epochs, or the error it stops with: that of the first
      file whose column cannot be read, or, with no epochs, the refusal of
      the pixel write that follows the first column read. */
  function CubeFor<V>(fs: InputStore<V>, files: seq<string>, column: string,
                      nimages: nat, missing: V): (r: Result<seq<seq<V>>>)
    ensures r.Ok? <==> (nimages > 0 || files == []) &&
                       forall i :: 0 <= i < |files| ==> GetColumn(fs, files[i], column).Ok?
    ensures r.Ok? ==> |r.value| == nimages &&
                      forall j :: 0 <= j < nimages ==> |r.value[j]| == |files|
    ensures r.Ok? ==> forall j, i :: 0 <= j < nimages && 0 <= i < |files| ==>
                        r.value[j][i] == Cell(GetColumn(fs, files[i], column).value, j, missing)
    ensures r.Err? && nimages == 0 && files != [] && GetColumn(fs, files[0], column).Ok? ==>
              r.error == BadPixelBox
    ensures r.Err? && (nimages > 0 || GetColumn(fs, files[0], column).Err?) ==>
              exists k :: 0 <= k < |files| && GetColumn(fs, files[k], column) == Err(r.error) &&
                forall m :: 0 <= m < k ==> GetColumn(fs, files[m], column).Ok?
  {
    if nimages == 0 && files != [] then
      match GetColumn(fs, files[0], column)
      case Err(e) => Err(e)
      case Ok(_) => Err(BadPixelBox)
    else
      match ReadColumns(fs, files, column)
      case Err(e) => Err(e)
      case Ok(cols) => Ok(Cube(cols, nimages, missing))
  }

  /** With epochs to write, the per-object loop stops with the error of the
      first file whose column cannot be read. */
  lemma CubeForFailsAt<V>(fs: InputStore<V>, files: seq<string>, column: string,
                          nimages: nat, missing: V, i: nat)
    requires nimages > 0 && i < |files|
    requires forall f :: 0 <= f < i ==> GetColumn(fs, files[f], column).Ok?
    requires GetColumn(fs, files[i], column).Err?
    ensures CubeFor(fs, files, column, nimages, missing) == Err(GetColumn(fs, files[i], column).error)
  {
    var r := CubeFor(fs, files, column, nimages, missing);
    var k :| 0 <= k < |files| && GetColumn(fs, files[k], column) == Err(r.error) &&
             forall m :: 0 <= m < k ==> GetColumn(fs, files[m], column).Ok?;
    assert k == i;
  }

  /** The HDU that create_image_hdu adds for these files, or the error it
      stops with. */
  function ImageBlock<V>(fs: InputStore<V>, files: seq<string>, hduName: string, column: string,
                         typecode: int, nimages: nat, missing: V): (r: Result<Hdu<V>>)
    ensures r.Ok? <==> ImageType(typecode).Ok? && CubeFor(fs, files, column, nimages, missing).Ok?
    ensures r.Ok? ==> r.value == Hdu(ImageType(typecode).value, [nimages, |files|], Some(hduName),
                                     CubeFor(fs, files, column, nimages, missing).value)
    ensures ImageType(typecode).Err? ==> r == Err(UnsupportedDataType(typecode))
    ensures ImageType(typecode).Ok? && CubeFor(fs, files, column, nimages, missing).Err? ==>
              r == Err(CubeFor(fs, files, column, nimages, missing).error)
  {
    match ImageType(typecode)
    case Err(e) => Err(e)
    case Ok(bitpix) =>
      match CubeFor(fs, files, column, nimages, missing)
      case Err(e) => Err(e)
      case Ok(pixels) => Ok(Hdu(bitpix, [nimages, |files|], Some(hduName), pixels))
  }

  /** One step of the loop of create_image_hdu: pad object i's column to
      nimages values and write it as the 1-based pixel box
      (1, i + 1) .. (nimages, i + 1), so that it fills image column i and
      leaves every other column alone. */
  method WriteColumn<V(0)>(out: FitsFile<V>, i: nat, column: seq<V>, nimages: nat, missing: V)
      returns (r: Outcome)
    requires out.Valid() && out.hasCurrent
    requires |out.naxes| == 2 && out.naxes[0] == nimages && i < out.naxes[1]
    modifies out.image
    ensures r == if nimages == 0 then Fail(BadPixelBox) else Pass
    ensures forall j, c :: 0 <= j < out.image.Length0 && 0 <= c < out.image.Length1 ==>
              out.image[j, c] == if r.Pass? && c == i then Cell(column, j, missing)
                                 else old(out.image[j, c])
  {
    var data := PadColumn(column, nimages, missing);
    var fpixel := Pixel(1, i + 1);
    var lpixel := Pixel(nimages, i + 1);
    assert out.BoxFits(fpixel, lpixel) ==> BoxSize(fpixel, lpixel) == nimages;
    r := out.WriteSubset(fpixel, lpixel, data);
    forall j | 0 <= j < nimages
      ensures BoxOffset(fpixel, lpixel, j + 1, i + 1) == j
      ensures data[j] == Cell(column, j, missing)
    {
      if j < |column| {
        assert data[j] == data[..|column|][j];
      }
    }
  }

  /** The loop of create_image_hdu over the objects: read file i's column,
      pad it to nimages values and write it as the 1-based pixel box
      (1, i + 1) .. (nimages, i + 1) of the current image. */
  method WriteObjectColumns<V(0)>(out: FitsFile<V>, column: string, files: seq<string>,
                                  nobjects: nat, nimages: nat, fs: InputStore<V>, missing: V)
      returns (r: Outcome)
    requires out.Valid() && out.hasCurrent && out.naxes == [nimages, nobjects]
    requires nobjects <= |files|
    modifies out.image
    ensures r.Pass? ==> CubeFor(fs, files[..nobjects], column, nimages, missing) == Ok(Pixels(out.image))
    ensures r.Fail? ==> CubeFor(fs, files[..nobjects], column, nimages, missing) == Err(r.error)
  {
    ghost var objects := files[..nobjects];
    var img := out.image;
    ghost var cols: seq<seq<V>> := [];
    var i := 0;
    while i < nobjects
      invariant 0 <= i <= nobjects
      invariant ReadColumns(fs, objects[..i], column) == Ok(cols)
      invariant nimages > 0 || i == 0
      invariant forall j, c :: 0 <= j < nimages && 0 <= c < i ==> img[j, c] == Cell(cols[c], j, missing)
    {
      var data := GetColumn(fs, files[i], column);
      assert objects[i] == files[i];
      if data.Err? {
        assert forall k :: 0 <= k < i ==> objects[..i][k] == objects[k];
        return Fail(data.error);
      }
      r := WriteColumn(out, i, data.value, nimages, missing);
      if r.Fail? {
        return;
      }
      assert objects[..i + 1][..i] == objects[..i];
      cols := cols + [data.value];
      i := i + 1;
    }
    assert objects[..i] == objects;
    PixelsAre(img, Cube(cols, nimages, missing));
    r := Pass;
  }

  /** create_image_hdu: append an image HDU of shape [nimages, nobjects],
      name it hduName, then fill it object by object. The HDUs that were
      there before are never touched; on an error the new HDU stays behind,
      partly written. */
  method CreateImageHdu<V(0)>(hduName: string, column: string, out: FitsFile<V>, typecode: int,
                              files: seq<string>, nobjects: nat, nimages: nat,
                              fs: InputStore<V>, missing: V) returns (r: Outcome)
    requires out.Valid() && out.hasCurrent
    requires nobjects <= |files|
    modifies out
    ensures out.Valid() && out.hasCurrent
    ensures |old(out.Blocks())| <= |out.Blocks()|
    ensures out.Blocks()[..|old(out.Blocks())|] == old(out.Blocks())
    ensures var expected := ImageBlock(fs, files[..nobjects], hduName, column, typecode, nimages, missing);
            && (expected.Ok? ==> r == Pass && out.Blocks() == old(out.Blocks()) + [expected.value])
            && (expected.Err? ==> r == Fail(expected.error))
  {
    var bitpix := ImageType(typecode);
    if bitpix.Err? {
      return Fail(bitpix.error);
    }
    out.CreateImg(bitpix.value, [nimages, nobjects]);
    var hdunum := out.HduNum();
    assert hdunum != 1;
    out.UpdateExtname(hduName);
    r := WriteObjectColumns(out, column, files, nobjects, nimages, fs, missing);
  }
}
