/** An abstract stand-in for the parts of the FITS library that the combiner
    calls: the input tables it reads, the output file it builds HDU by HDU,
    and the file system in which the output is created. Nothing here models
    the FITS byte format; a file is a value or an object holding its HDUs. */
module FitsIo {

  /** Every failure the combiner can meet; each one ends the run. */
  datatype Error =
    | OpenFailed(path: string)                      // the input file cannot be opened
    | NoTableHdu(path: string)                      // the input file has no second HDU
    | NotBinaryTable(path: string)                  // its second HDU is not a binary table
    | ColumnNotFound(path: string, column: string)  // the table has no such column
    | EmptyFileList                                 // the maximum of zero row counts
    | UnsupportedDataType(typecode: int)            // neither TDOUBLE nor TINT
    | BadDimension                                  // a pixel write to an HDU that is not 2-D
    | BadPixelBox                                   // a pixel box with last < first or outside the image
    | FileNotCreated(path: string)                  // the output path already exists
    | CreateFailed(path: string)                    // any other failure to create the output

  datatype Result<T> = Ok(value: T) | Err(error: Error)

  datatype Outcome = Pass | Fail(error: Error)

  datatype Option<T> = None | Some(value: T)

  /** Type codes of the library's read and write calls. */
  const TINT: int := 31
  const TDOUBLE: int := 82

  /** The pixel type of an image HDU (BYTE_IMG, LONG_IMG, DOUBLE_IMG). */
  datatype Bitpix = ByteImg | LongImg | DoubleImg

  // ---------------------------------------------------------------------
  // Input files

  /** What an input file holds where the combiner looks for its table. */
  datatype HduKind = NoHdu | ImageHdu | AsciiTable | BinaryTable

  /** An input file: the kind of its second HDU, the row count of that
      table, and its columns by name. */
  datatype TableFile<V> = TableFile(second: HduKind, nrows: nat, columns: map<string, seq<V>>)

  /** In a table every column has one value per row. */
  predicate RowAligned<V>(f: TableFile<V>)
  {
    forall c :: c in f.columns ==> |f.columns[c]| == f.nrows
  }

  type InputFile<V> = f: TableFile<V> | RowAligned(f) witness TableFile(NoHdu, 0, map[])

  /** The input files that exist, by path. */
  type InputStore<V> = map<string, InputFile<V>>

  // ---------------------------------------------------------------------
  // Output HDUs

  /** One HDU of the output: its pixel type, its axis lengths, its EXTNAME
      keyword if one was written, and its pixels indexed [axis 1][axis 2]. */
  datatype Hdu<V> = Hdu(bitpix: Bitpix, naxes: seq<nat>, extname: Option<string>, pixels: seq<seq<V>>)

  /** A 1-based pixel position: x along axis 1, y along axis 2. */
  datatype Pixel = Pixel(x: int, y: int)

  /** The rows of a two-dimensional array, as a value. */
  function Pixels<V>(a: array2<V>): (p: seq<seq<V>>)
    reads a
    ensures |p| == a.Length0
    ensures forall j :: 0 <= j < a.Length0 ==>
              |p[j]| == a.Length1 && forall i :: 0 <= i < a.Length1 ==> p[j][i] == a[j, i]
  {
    seq(a.Length0, j requires 0 <= j < a.Length0 reads a =>
      seq(a.Length1, i requires 0 <= i < a.Length1 reads a => a[j, i]))
  }

  lemma PixelsAre<V>(a: array2<V>, c: seq<seq<V>>)
    requires |c| == a.Length0
    requires forall j :: 0 <= j < |c| ==> |c[j]| == a.Length1
    requires forall j, i :: 0 <= j < a.Length0 && 0 <= i < a.Length1 ==> c[j][i] == a[j, i]
    ensures Pixels(a) == c
  {
    var p := Pixels(a);
    forall j | 0 <= j < |c|
      ensures p[j] == c[j]
    {
      assert |p[j]| == |c[j]|;
      forall i | 0 <= i < |c[j]|
        ensures p[j][i] == c[j][i]
      {
      }
    }
  }

  /** Whether a pixel lies in the box from f to l, both corners included. */
  predicate InBox(f: Pixel, l: Pixel, x: int, y: int)
  {
    f.x <= x <= l.x && f.y <= y <= l.y
  }

  /** The number of pixels in the box from f to l. */
  function BoxSize(f: Pixel, l: Pixel): int
  {
    (l.x - f.x + 1) * (l.y - f.y + 1)
  }

  lemma RowMajorBound(r: int, c: int, w: int, h: int)
    requires 0 <= r < h && 0 <= c < w
    ensures 0 <= r * w + c < w * h
  {
    assert r * w <= (h - 1) * w;
    assert (h - 1) * w + w == w * h;
  }

  /** Where pixel (x, y) of the box from f to l sits in the buffer the
      library reads: axis 1 varies fastest. */
  function BoxOffset(f: Pixel, l: Pixel, x: int, y: int): (k: int)
    requires InBox(f, l, x, y)
    ensures 0 <= k < BoxSize(f, l)
  {
    RowMajorBound(y - f.y, x - f.x, l.x - f.x + 1, l.y - f.y + 1);
    (y - f.y) * (l.x - f.x + 1) + (x - f.x)
  }

  /** An output FITS file open for writing. Every HDU but the current one
      is finished and kept as a value; the current one's pixels live in a
      pre-sized array that pixel writes update in place. */
  class FitsFile<V(0)> {
    var closed: seq<Hdu<V>>
    var hasCurrent: bool
    var bitpix: Bitpix
    var naxes: seq<nat>
    var extname: Option<string>
    var image: array2<V>

    ghost predicate Valid()
      reads this
    {
      && (!hasCurrent ==> closed == [])
      && (if |naxes| == 2 then image.Length0 == naxes[0] && image.Length1 == naxes[1]
          else image.Length0 == 0 && image.Length1 == 0)
    }

    /** The HDUs of the file, in order, the current one last. */
    function Blocks(): seq<Hdu<V>>
      reads this, image
    {
      closed + if hasCurrent then [Hdu(bitpix, naxes, extname, Pixels(image))] else []
    }

    /** fits_get_hdu_num: the 1-based number of the current HDU. */
    function HduNum(): (n: nat)
      reads this, image
      requires Valid()
      ensures n == |Blocks()|
      ensures hasCurrent <==> n >= 1
    {
      |closed| + if hasCurrent then 1 else 0
    }

    /** A new file holds no HDU. */
    constructor ()
      ensures Valid() && Blocks() == [] && !hasCurrent
    {
      closed := [];
      hasCurrent := false;
      bitpix := ByteImg;
      naxes := [];
      extname := None;
      image := new V[0, 0];
    }

    /** fits_create_img: append an image HDU of the given pixel type and
        axes (none, for an empty HDU) and make it the current one. */
    method CreateImg(bp: Bitpix, axes: seq<nat>)
      requires Valid()
      requires |axes| == 0 || |axes| == 2
      modifies this
      ensures Valid() && hasCurrent && fresh(image)
      ensures bitpix == bp && naxes == axes && extname == None && closed == old(Blocks())
      ensures Blocks() == old(Blocks()) + [Hdu(bp, axes, None, Pixels(image))]
    {
      closed := Blocks();
      hasCurrent := true;
      bitpix := bp;
      naxes := axes;
      extname := None;
      if |axes| == 2 {
        image := new V[axes[0], axes[1]];
      } else {
        image := new V[0, 0];
      }
    }

    /** fits_update_key for EXTNAME: name the current HDU. */
    method UpdateExtname(name: string)
      requires Valid() && hasCurrent
      modifies this
      ensures Valid() && hasCurrent && extname == Some(name)
      ensures closed == old(closed) && bitpix == old(bitpix) && naxes == old(naxes) && image == old(image)
      ensures Blocks() == old(closed) + [old(Blocks())[|old(Blocks())| - 1].(extname := Some(name))]
    {
      extname := Some(name);
    }

    /** Whether the box from f to l lies inside the current image, corners
        in order. */
    predicate BoxFits(f: Pixel, l: Pixel)
      reads this
    {
      |naxes| == 2 && 1 <= f.x <= l.x <= naxes[0] && 1 <= f.y <= l.y <= naxes[1]
    }

    /** fits_write_subset: copy the buffer into the box from fpixel to
        lpixel of the current image, axis 1 varying fastest; a box that does
        not fit is refused and nothing is written. */
    method WriteSubset(fpixel: Pixel, lpixel: Pixel, data: seq<V>) returns (r: Outcome)
      requires Valid() && hasCurrent
      requires BoxFits(fpixel, lpixel) ==> |data| >= BoxSize(fpixel, lpixel)
      modifies image
      ensures r == if |naxes| != 2 then Fail(BadDimension)
                   else if BoxFits(fpixel, lpixel) then Pass
                   else Fail(BadPixelBox)
      ensures forall x, y :: 0 <= x < image.Length0 && 0 <= y < image.Length1 ==>
                image[x, y] == if r.Pass? && InBox(fpixel, lpixel, x + 1, y + 1)
                               then data[BoxOffset(fpixel, lpixel, x + 1, y + 1)]
                               else old(image[x, y])
    {
      if |naxes| != 2 {
        return Fail(BadDimension);
      }
      if !BoxFits(fpixel, lpixel) {
        return Fail(BadPixelBox);
      }
      r := Pass;
      var y := fpixel.y;
      while y <= lpixel.y
        invariant fpixel.y <= y <= lpixel.y + 1
        invariant forall a, b :: 0 <= a < image.Length0 && 0 <= b < image.Length1 ==>
                    image[a, b] == if fpixel.x <= a + 1 <= lpixel.x && fpixel.y <= b + 1 < y
                                   then data[BoxOffset(fpixel, lpixel, a + 1, b + 1)]
                                   else old(image[a, b])
      {
        var x := fpixel.x;
        while x <= lpixel.x
          invariant fpixel.x <= x <= lpixel.x + 1
          invariant forall a, b :: 0 <= a < image.Length0 && 0 <= b < image.Length1 ==>
                      image[a, b] == if (fpixel.x <= a + 1 <= lpixel.x && fpixel.y <= b + 1 < y)
                                        || (b + 1 == y && fpixel.x <= a + 1 < x)
                                     then data[BoxOffset(fpixel, lpixel, a + 1, b + 1)]
                                     else old(image[a, b])
        {
          image[x - 1, y - 1] := data[BoxOffset(fpixel, lpixel, x, y)];
          x := x + 1;
        }
        y := y + 1;
      }
    }
  }

  // ---------------------------------------------------------------------
  // The file system the output is created in

  /** The paths that exist, and the paths at which a file cannot be
      created for a reason other than a file already being there. */
  class Disk {
    var names: set<string>
    const unwritable: set<string>

    constructor (existing: set<string>, blocked: set<string>)
      ensures names == existing && unwritable == blocked
    {
      names := existing;
      unwritable := blocked;
    }

    /** fits_create_file: a new, empty FITS file at path. */
    method CreateFile<V(0)>(path: string) returns (r: Result<FitsFile<V>>)
      modifies this
      ensures path in old(names) ==> r == Err(FileNotCreated(path)) && names == old(names)
      ensures path !in old(names) && path in unwritable ==>
                r == Err(CreateFailed(path)) && names == old(names)
      ensures path !in old(names) && path !in unwritable ==>
                r.Ok? && fresh(r.value) && r.value.Valid() && r.value.Blocks() == []
                && !r.value.hasCurrent && names == old(names) + {path}
    {
      if path in names {
        return Err(FileNotCreated(path));
      }
      if path in unwritable {
        return Err(CreateFailed(path));
      }
      var f := new FitsFile<V>();
      names := names + {path};
      return Ok(f);
    }

    /** remove: delete the file at path, if there is one. */
    method Remove(path: string)
      modifies this
      ensures names == old(names) - {path}
    {
      names := names - {path};
    }
  }
}
