/** The orchestrator: plan the dimensions, create the output afresh, write
    the empty primary HDU, then one cube per quantity in a fixed order. */
module Combiner {
  import opened FitsIo
  import opened ColumnReader
  import opened DimensionPlanner
  import opened CubeWriter

  /** One measurement to extract: the output HDU's EXTNAME, the input
      column it comes from, and the type code it is read and written as. */
  datatype Quantity = Quantity(hduName: string, column: string, typecode: int)

  /** The quantities combine_files writes, in the order it writes them. */
  const QUANTITIES: seq<Quantity> := [
    Quantity("HJD", "TIME", TDOUBLE),
    Quantity("FLUX", "DETFLUX", TDOUBLE),
    Quantity("FLUXERR", "DETFLUX_ERR", TDOUBLE),
    Quantity("CCDX", "CENT_COL", TDOUBLE),
    Quantity("CCDY", "CENT_ROW", TDOUBLE),
    Quantity("QUALITY", "QUALITY", TINT)
  ]

  function QuantityBlock<V>(fs: InputStore<V>, files: seq<string>, q: Quantity,
                            nimages: nat, missing: V): Result<Hdu<V>>
  {
    ImageBlock(fs, files, q.hduName, q.column, q.typecode, nimages, missing)
  }

  /** The image HDUs for the quantities, in order; the first quantity
      whose HDU cannot be written stops the run. */
  function ImageBlocks<V>(fs: InputStore<V>, files: seq<string>, qs: seq<Quantity>,
                          nimages: nat, missing: V): (r: Result<seq<Hdu<V>>>)
    ensures r.Ok? ==> |r.value| == |qs|
    ensures r.Ok? ==> forall k :: 0 <= k < |qs| ==>
                        QuantityBlock(fs, files, qs[k], nimages, missing) == Ok(r.value[k])
    decreases |qs|
  {
    if qs == [] then Ok([])
    else
      match QuantityBlock(fs, files, qs[0], nimages, missing)
      case Err(e) => Err(e)
      case Ok(b) =>
        match ImageBlocks(fs, files, qs[1..], nimages, missing)
        case Err(e) => Err(e)
        case Ok(bs) => Ok([b] + bs)
  }

  /** When every quantity's HDU can be written, they are written in order. */
  lemma {:induction false} ImageBlocksAllOk<V>(fs: InputStore<V>, files: seq<string>, qs: seq<Quantity>,
                                              nimages: nat, missing: V, bs: seq<Hdu<V>>)
    requires |bs| == |qs|
    requires forall k :: 0 <= k < |qs| ==> QuantityBlock(fs, files, qs[k], nimages, missing) == Ok(bs[k])
    ensures ImageBlocks(fs, files, qs, nimages, missing) == Ok(bs)
    decreases |qs|
  {
    if qs != [] {
      assert forall k :: 0 <= k < |qs| - 1 ==> qs[1..][k] == qs[k + 1] && bs[1..][k] == bs[k + 1];
      ImageBlocksAllOk(fs, files, qs[1..], nimages, missing, bs[1..]);
      assert bs == [bs[0]] + bs[1..];
    }
  }

  /** The run stops with the error of the first quantity that fails. */
  lemma {:induction false} ImageBlocksFailsAt<V>(fs: InputStore<V>, files: seq<string>, qs: seq<Quantity>,
                                                nimages: nat, missing: V, k: nat)
    requires k < |qs|
    requires forall m :: 0 <= m < k ==> QuantityBlock(fs, files, qs[m], nimages, missing).Ok?
    requires QuantityBlock(fs, files, qs[k], nimages, missing).Err?
    ensures ImageBlocks(fs, files, qs, nimages, missing) == Err(QuantityBlock(fs, files, qs[k], nimages, missing).error)
    decreases k
  {
    if k > 0 {
      assert forall m :: 0 <= m < k - 1 ==> qs[1..][m] == qs[m + 1];
      ImageBlocksFailsAt(fs, files, qs[1..], nimages, missing, k - 1);
    }
  }

  /** The empty HDU written first: no axes, no pixels, no EXTNAME. */
  function PrimaryHdu<V>(): Hdu<V>
  {
    Hdu(ByteImg, [], None, [])
  }

  /** What combine_files leaves in the output, once the output file has
      been created, or the error it stops with. */
  function ExpectedOutput<V>(fs: InputStore<V>, files: seq<string>, missing: V): (r: Result<seq<Hdu<V>>>)
    ensures ComputeImageDimensions(fs, files).Err? ==> r == Err(ComputeImageDimensions(fs, files).error)
    ensures r.Ok? ==> ComputeImageDimensions(fs, files).Ok? && |r.value| == 1 + |QUANTITIES| && r.value[0] == PrimaryHdu()
    ensures r.Ok? ==> forall k :: 0 <= k < |QUANTITIES| ==>
                        QuantityBlock(fs, files, QUANTITIES[k], ComputeImageDimensions(fs, files).value.nimages, missing)
                        == Ok(r.value[k + 1])
  {
    match ComputeImageDimensions(fs, files)
    case Err(e) => Err(e)
    case Ok(dims) =>
      match ImageBlocks(fs, files, QUANTITIES, dims.nimages, missing)
      case Err(e) => Err(e)
      case Ok(bs) => Ok([PrimaryHdu()] + bs)
  }

  // ---------------------------------------------------------------------
  // Properties of the expected output

  /** The output is the empty primary HDU followed by the six cubes,
      named and typed as declared, all of the planned shape. */
  lemma OutputLayout<V>(fs: InputStore<V>, files: seq<string>, missing: V)
    requires ExpectedOutput(fs, files, missing).Ok?
    ensures ComputeImageDimensions(fs, files).Ok?
    ensures var bs := ExpectedOutput(fs, files, missing).value;
            var dims := ComputeImageDimensions(fs, files).value;
            && |bs| == 7
            && bs[0] == PrimaryHdu()
            && bs[1].extname == Some("HJD") && bs[1].bitpix == DoubleImg
            && bs[2].extname == Some("FLUX") && bs[2].bitpix == DoubleImg
            && bs[3].extname == Some("FLUXERR") && bs[3].bitpix == DoubleImg
            && bs[4].extname == Some("CCDX") && bs[4].bitpix == DoubleImg
            && bs[5].extname == Some("CCDY") && bs[5].bitpix == DoubleImg
            && bs[6].extname == Some("QUALITY") && bs[6].bitpix == LongImg
            && forall k :: 1 <= k < 7 ==> bs[k].naxes == [dims.nimages, dims.nobjects]
  {
    var dims := ComputeImageDimensions(fs, files).value;
    var bs := ImageBlocks(fs, files, QUANTITIES, dims.nimages, missing).value;
    assert ExpectedOutput(fs, files, missing).value == [PrimaryHdu()] + bs;
    forall k | 0 <= k < 6
      ensures bs[k].extname == Some(QUANTITIES[k].hduName)
      ensures bs[k].bitpix == ImageType(QUANTITIES[k].typecode).value
      ensures bs[k].naxes == [dims.nimages, dims.nobjects]
    {
      assert QuantityBlock(fs, files, QUANTITIES[k], dims.nimages, missing) == Ok(bs[k]);
    }
  }

  /** Cell (j, i) of cube k holds value j of file i's column for that
      quantity while the file has that many rows, and the sentinel after;
      no file has more rows than the cube has epochs. */
  lemma OutputCells<V>(fs: InputStore<V>, files: seq<string>, missing: V, k: nat, j: nat, i: nat)
    requires ExpectedOutput(fs, files, missing).Ok?
    requires k < 6 && i < |files| && j < ComputeImageDimensions(fs, files).value.nimages
    ensures var bs := ExpectedOutput(fs, files, missing).value;
            var col := GetColumn(fs, files[i], QUANTITIES[k].column);
            && col.Ok?
            && |col.value| == fs[files[i]].nrows <= ComputeImageDimensions(fs, files).value.nimages
            && |bs[k + 1].pixels| == ComputeImageDimensions(fs, files).value.nimages
            && |bs[k + 1].pixels[j]| == |files|
            && bs[k + 1].pixels[j][i] == (if j < fs[files[i]].nrows then col.value[j] else missing)
  {
    var dims := ComputeImageDimensions(fs, files).value;
    var bs := ImageBlocks(fs, files, QUANTITIES, dims.nimages, missing).value;
    assert ExpectedOutput(fs, files, missing).value == [PrimaryHdu()] + bs;
    assert QuantityBlock(fs, files, QUANTITIES[k], dims.nimages, missing) == Ok(bs[k]);
  }

  /** Object i's column of cube k is file i's column followed by exactly
      as many sentinels as the file has fewer rows than the longest file. */
  lemma OutputColumnIsPadded<V>(fs: InputStore<V>, files: seq<string>, missing: V, k: nat, i: nat)
    requires ExpectedOutput(fs, files, missing).Ok?
    requires k < 6 && i < |files|
    ensures var bs := ExpectedOutput(fs, files, missing).value;
            var nimages := ComputeImageDimensions(fs, files).value.nimages;
            var col := GetColumn(fs, files[i], QUANTITIES[k].column).value;
            && Rectangular(bs[k + 1].pixels, |files|)
            && ObjectColumn(bs[k + 1].pixels, |files|, i) == col + seq(nimages - |col|, _ => missing)
  {
    var dims := ComputeImageDimensions(fs, files).value;
    var bs := ImageBlocks(fs, files, QUANTITIES, dims.nimages, missing).value;
    assert ExpectedOutput(fs, files, missing).value == [PrimaryHdu()] + bs;
    var q := QUANTITIES[k];
    assert QuantityBlock(fs, files, q, dims.nimages, missing) == Ok(bs[k]);
    var cols := ReadColumns(fs, files, q.column).value;
    assert bs[k].pixels == Cube(cols, dims.nimages, missing);
    assert cols[i] == GetColumn(fs, files[i], q.column).value;
    CubeColumnIsPadded(cols, dims.nimages, missing, i);
  }

  /** ImageBlocks succeeds exactly when every quantity's HDU can be written. */
  lemma {:induction false} ImageBlocksOkIff<V>(fs: InputStore<V>, files: seq<string>, qs: seq<Quantity>,
                                              nimages: nat, missing: V)
    ensures ImageBlocks(fs, files, qs, nimages, missing).Ok? <==>
            forall k :: 0 <= k < |qs| ==> QuantityBlock(fs, files, qs[k], nimages, missing).Ok?
    decreases |qs|
  {
    if qs != [] {
      assert forall k :: 0 <= k < |qs| - 1 ==> qs[1..][k] == qs[k + 1];
      ImageBlocksOkIff(fs, files, qs[1..], nimages, missing);
    }
  }

  /** The file can be read as an input: it exists and its second HDU is a
      binary table. */
  predicate IsInputTable<V>(fs: InputStore<V>, path: string)
  {
    path in fs && fs[path].second == BinaryTable
  }

  /** The input file has every column the quantities are read from. */
  predicate HasAllColumns<V>(fs: InputStore<V>, path: string)
    requires path in fs
  {
    forall k :: 0 <= k < |QUANTITIES| ==> QUANTITIES[k].column in fs[path].columns
  }

  /** The run succeeds exactly when the file list is not empty, every file
      is a binary table with all six columns, and some file has a row. */
  lemma ExpectedOutputSucceeds<V>(fs: InputStore<V>, files: seq<string>, missing: V)
    ensures ExpectedOutput(fs, files, missing).Ok? <==>
            && files != []
            && (forall i :: 0 <= i < |files| ==> IsInputTable(fs, files[i]) && HasAllColumns(fs, files[i]))
            && (exists i :: 0 <= i < |files| && IsInputTable(fs, files[i]) && fs[files[i]].nrows > 0)
  {
    var plan := ComputeImageDimensions(fs, files);
    assert plan.Ok? <==> files != [] && forall i :: 0 <= i < |files| ==> IsInputTable(fs, files[i]) by {
      assert forall i :: 0 <= i < |files| ==> (GetNImages(fs, files[i]).Ok? <==> IsInputTable(fs, files[i]));
    }
    if plan.Ok? {
      var nimages := plan.value.nimages;
      assert nimages > 0 <==> exists i :: 0 <= i < |files| && IsInputTable(fs, files[i]) && fs[files[i]].nrows > 0;
      ImageBlocksOkIff(fs, files, QUANTITIES, nimages, missing);
      forall k | 0 <= k < 6
        ensures QuantityBlock(fs, files, QUANTITIES[k], nimages, missing).Ok? <==>
                nimages > 0 && forall i :: 0 <= i < |files| ==> QUANTITIES[k].column in fs[files[i]].columns
      {
        assert ImageType(QUANTITIES[k].typecode).Ok?;
      }
      if ImageBlocks(fs, files, QUANTITIES, nimages, missing).Ok? {
        forall i | 0 <= i < |files|
          ensures HasAllColumns(fs, files[i])
        {
          forall k | 0 <= k < 6
            ensures QUANTITIES[k].column in fs[files[i]].columns
          {
            assert QuantityBlock(fs, files, QUANTITIES[k], nimages, missing).Ok?;
          }
        }
      }
    }
  }

  /** A quantity's HDU can be built when there are epochs to write and
      every file is a table holding its column. */
  lemma QuantityBlockOk<V>(fs: InputStore<V>, files: seq<string>, q: Quantity, nimages: nat, missing: V)
    requires q.typecode == TDOUBLE || q.typecode == TINT
    requires nimages > 0
    requires forall f :: 0 <= f < |files| ==> IsInputTable(fs, files[f]) && q.column in fs[files[f]].columns
    ensures QuantityBlock(fs, files, q, nimages, missing).Ok?
  {
    assert forall f :: 0 <= f < |files| ==> GetColumn(fs, files[f], q.column).Ok?;
  }

  /** With epochs to write, a quantity's HDU fails with the read error of
      the first file whose column cannot be read. */
  lemma QuantityBlockFailsAt<V>(fs: InputStore<V>, files: seq<string>, q: Quantity, nimages: nat,
                                missing: V, i: nat)
    requires q.typecode == TDOUBLE || q.typecode == TINT
    requires nimages > 0 && i < |files|
    requires forall f :: 0 <= f < i ==> GetColumn(fs, files[f], q.column).Ok?
    requires GetColumn(fs, files[i], q.column).Err?
    ensures QuantityBlock(fs, files, q, nimages, missing) == Err(GetColumn(fs, files[i], q.column).error)
  {
    CubeForFailsAt(fs, files, q.column, nimages, missing, i);
  }

  /** A missing column fails the run naming the first file and the first
      quantity that lack it, once every file is a table with rows to read. */
  lemma MissingColumnFails<V>(fs: InputStore<V>, files: seq<string>, missing: V, k: nat, i: nat)
    requires forall f :: 0 <= f < |files| ==> IsInputTable(fs, files[f])
    requires exists f :: 0 <= f < |files| && files[f] in fs && fs[files[f]].nrows > 0
    requires k < |QUANTITIES| && i < |files|
    requires forall m, f :: 0 <= m < k && 0 <= f < |files| ==>
               files[f] in fs && QUANTITIES[m].column in fs[files[f]].columns
    requires forall f :: 0 <= f < i ==> files[f] in fs && QUANTITIES[k].column in fs[files[f]].columns
    requires files[i] in fs && QUANTITIES[k].column !in fs[files[i]].columns
    ensures ExpectedOutput(fs, files, missing) == Err(ColumnNotFound(files[i], QUANTITIES[k].column))
  {
    var plan := ComputeImageDimensions(fs, files);
    assert plan.Ok? by {
      assert forall f :: 0 <= f < |files| ==> GetNImages(fs, files[f]).Ok?;
    }
    var nimages := plan.value.nimages;
    assert nimages > 0;
    forall m | 0 <= m < k
      ensures QuantityBlock(fs, files, QUANTITIES[m], nimages, missing).Ok?
    {
      QuantityBlockOk(fs, files, QUANTITIES[m], nimages, missing);
    }
    var q := QUANTITIES[k];
    assert forall f :: 0 <= f < i ==> GetColumn(fs, files[f], q.column).Ok?;
    QuantityBlockFailsAt(fs, files, q, nimages, missing, i);
    ImageBlocksFailsAt(fs, files, QUANTITIES, nimages, missing, k);
  }

  // ---------------------------------------------------------------------
  // The operations

  /** create_and_clobber: create the output file; if one is already there,
      delete it and try again. Any other failure to create it is fatal. */
  method CreateAndClobber<V(0)>(disk: Disk, path: string) returns (r: Result<FitsFile<V>>)
    modifies disk
    decreases if path in disk.names then 1 else 0
    ensures path !in disk.unwritable ==>
              r.Ok? && fresh(r.value) && r.value.Valid() && r.value.Blocks() == []
              && !r.value.hasCurrent && disk.names == old(disk.names) + {path}
    ensures path in disk.unwritable ==>
              r == Err(CreateFailed(path)) && disk.names == old(disk.names) - {path}
  {
    r := disk.CreateFile<V>(path);
    if r.Err? && r.error == FileNotCreated(path) {
      disk.Remove(path);
      r := CreateAndClobber(disk, path);
    }
  }

  /** The first k quantities' HDUs have been written, as written. */
  ghost predicate WrittenUpTo<V>(fs: InputStore<V>, files: seq<string>, nimages: nat, missing: V,
                                 written: seq<Hdu<V>>, k: nat)
  {
    && k == |written| <= |QUANTITIES|
    && forall m :: 0 <= m < k ==> QuantityBlock(fs, files, QUANTITIES[m], nimages, missing) == Ok(written[m])
  }

  /** One create_image_hdu call of combine_files, for quantity k. */
  method WriteQuantity<V(0)>(out: FitsFile<V>, k: nat, files: seq<string>, nobjects: nat, nimages: nat,
                             fs: InputStore<V>, missing: V, ghost base: seq<Hdu<V>>, ghost written: seq<Hdu<V>>)
      returns (s: Outcome, ghost written': seq<Hdu<V>>)
    requires k < |QUANTITIES| && nobjects <= |files|
    requires out.Valid() && out.hasCurrent
    requires WrittenUpTo(fs, files[..nobjects], nimages, missing, written, k) && out.Blocks() == base + written
    modifies out
    ensures out.Valid() && out.hasCurrent
    ensures s.Pass? ==> WrittenUpTo(fs, files[..nobjects], nimages, missing, written', k + 1) &&
                        out.Blocks() == base + written'
    ensures s.Fail? ==> ImageBlocks(fs, files[..nobjects], QUANTITIES, nimages, missing) == Err(s.error)
    ensures |base + written| <= |out.Blocks()| && out.Blocks()[..|base + written|] == base + written
    ensures |base| <= |out.Blocks()| && out.Blocks()[..|base|] == base
  {
    var q := QUANTITIES[k];
    s := CreateImageHdu(q.hduName, q.column, out, q.typecode, files, nobjects, nimages, fs, missing);
    if s.Fail? {
      ImageBlocksFailsAt(fs, files[..nobjects], QUANTITIES, nimages, missing, k);
      written' := written;
    } else {
      written' := written + [QuantityBlock(fs, files[..nobjects], q, nimages, missing).value];
    }
    assert (base + written)[..|base|] == base;
  }

  /** The six create_image_hdu calls of combine_files, in order; the first
      that fails ends the run. */
  method WriteQuantities<V(0)>(out: FitsFile<V>, files: seq<string>, nobjects: nat, nimages: nat,
                               fs: InputStore<V>, missing: V) returns (s: Outcome)
    requires out.Valid() && out.hasCurrent
    requires nobjects <= |files|
    modifies out
    ensures out.Valid() && out.hasCurrent
    ensures |old(out.Blocks())| <= |out.Blocks()| && out.Blocks()[..|old(out.Blocks())|] == old(out.Blocks())
    ensures var expected := ImageBlocks(fs, files[..nobjects], QUANTITIES, nimages, missing);
            && (expected.Ok? ==> s == Pass && out.Blocks() == old(out.Blocks()) + expected.value)
            && (expected.Err? ==> s == Fail(expected.error))
  {
    ghost var base := out.Blocks();
    ghost var written: seq<Hdu<V>> := [];
    s, written := WriteQuantity(out, 0, files, nobjects, nimages, fs, missing, base, written);
    if s.Fail? { return; }
    s, written := WriteQuantity(out, 1, files, nobjects, nimages, fs, missing, base, written);
    if s.Fail? { return; }
    s, written := WriteQuantity(out, 2, files, nobjects, nimages, fs, missing, base, written);
    if s.Fail? { return; }
    s, written := WriteQuantity(out, 3, files, nobjects, nimages, fs, missing, base, written);
    if s.Fail? { return; }
    s, written := WriteQuantity(out, 4, files, nobjects, nimages, fs, missing, base, written);
    if s.Fail? { return; }
    s, written := WriteQuantity(out, 5, files, nobjects, nimages, fs, missing, base, written);
    if s.Fail? { return; }
    ImageBlocksAllOk(fs, files[..nobjects], QUANTITIES, nimages, missing, written);
  }

  /** combine_files: plan the dimensions, create the output afresh, write
      the empty primary HDU and then the six cubes in order. An error at
      any step ends the run; what was written by then stays written. */
  method CombineFiles<V(0)>(fs: InputStore<V>, files: seq<string>, output: string, disk: Disk, missing: V)
      returns (r: Result<FitsFile<V>>)
    modifies disk
    ensures ComputeImageDimensions(fs, files).Err? ==>
              r == Err(ComputeImageDimensions(fs, files).error) && disk.names == old(disk.names)
    ensures ComputeImageDimensions(fs, files).Ok? && output in disk.unwritable ==>
              r == Err(CreateFailed(output)) && disk.names == old(disk.names) - {output}
    ensures ComputeImageDimensions(fs, files).Ok? && output !in disk.unwritable ==>
              && disk.names == old(disk.names) + {output}
              && (r.Ok? <==> ExpectedOutput(fs, files, missing).Ok?)
              && (r.Ok? ==> fresh(r.value) && r.value.Valid() &&
                            r.value.Blocks() == ExpectedOutput(fs, files, missing).value)
              && (r.Err? ==> r.error == ExpectedOutput(fs, files, missing).error)
  {
    var plan := ComputeImageDimensions(fs, files);
    if plan.Err? {
      return Err(plan.error);
    }
    var nobjects, nimages := plan.value.nobjects, plan.value.nimages;
    var created := CreateAndClobber<V>(disk, output);
    if created.Err? {
      return Err(created.error);
    }
    var out := created.value;
    out.CreateImg(ByteImg, []);
    assert out.Blocks() == [PrimaryHdu()];
    assert files[..nobjects] == files;
    var s := WriteQuantities(out, files, nobjects, nimages, fs, missing);
    if s.Fail? {
      return Err(s.error);
    }
    r := Ok(out);
  }
}
