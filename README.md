# k2-pca FITS combiner, modelled in Dafny

This project models the cube-assembly core of the k2-pca combiner
(`src/main.cpp`). The combiner takes many per-object light-curve FITS
tables and turns them into one multi-extension FITS file.

- Every cube has the shape `[nimages, nobjects]`: `nobjects` is the number
  of input files and `nimages` the largest row count among them.
- The file holds an empty primary HDU first.
- Six image HDUs follow, one per quantity, in a fixed order:
  - `HJD` from `TIME`;
  - `FLUX` from `DETFLUX`;
  - `FLUXERR` from `DETFLUX_ERR`;
  - `CCDX` from `CENT_COL`;
  - `CCDY` from `CENT_ROW`;
  - `QUALITY` from `QUALITY`.
- The first five are `DOUBLE_IMG`, the last is `LONG_IMG`.
- Column `i` of every cube holds file `i`'s column, right-padded with the
  missing-value sentinel.

The FITS library is replaced by abstract values and objects (`fitsio.dfy`,
module `FitsIo`):

- **An input file** is a `TableFile`: the kind of its second HDU, its row
  count, and its columns by name. Every column has one value per row.
  The files of a run form an `InputStore`, a map from path to file.
- **The output file** is a `FitsFile` object. The HDUs already finished
  are kept as `Hdu` values. The current HDU's pixels live in a pre-sized
  `array2` that `WriteSubset` updates in place. `Blocks()` is the whole
  file as a sequence of HDUs.
- **The file system** the output is created in is a `Disk` object. It
  holds the set of existing paths and the paths that cannot be created.
- **Element types** are abstract. The pixel type is a type parameter `V`,
  and the sentinel (`NULL_VALUE`) is a parameter `missing: V`.
- **Errors.** Each failure that ends the run is a value of `Error`. An
  operation returns `Result<T>` or `Outcome` in place of calling `exit`.

The other modules follow the program:

- `reader.dfy` (`ColumnReader`): `get_nimages` and `get_column`.
- `planner.dfy` (`DimensionPlanner`): `compute_image_dimensions`.
- `cube.dfy` (`CubeWriter`): the padding loop, the subset writes and
  `create_image_hdu`.
- `combine.dfy` (`Combiner`): `create_and_clobber` and `combine_files`.

The pure parts are functions. The padding loop, the per-object write loop,
the pixel writes, the recursive re-creation of the output and the HDU-by-HDU
filling of the output are methods on the objects above. The pixel write,
the column write and the re-creation of the output are specified by their
own contracts. The methods that fill the output are proved against
specification functions: `Padded`, `CubeFor`, `ImageBlock`, `ImageBlocks`
and `ExpectedOutput`. The lemmas of `Combiner` then prove what the program
promises about those functions.

## Model

| member | source | states |
|---|---|---|
| ColumnReader.GetNImages | src/main.cpp:15-30 | Succeeds exactly when the file opens and its second HDU is a binary table, and then gives that table's row count. Otherwise: an open failure when the file is missing, a missing-HDU error when there is no second HDU, a not-a-binary-table error for an image or ASCII table. |
| ColumnReader.GetColumn | src/main.cpp:40-57 | Succeeds exactly when the row count can be read and the table has the column. The column read has exactly the file's row count of values, and they are the table's values. A row-count error propagates unchanged; a missing column is `ColumnNotFound`. |
| ColumnReader.ReadColumns | src/main.cpp:85-88 | Reads the column from every file in order. Succeeds exactly when every file's read succeeds, with one column per file. Otherwise it fails with the error of the first file whose read fails. |
| DimensionPlanner.RowCounts | src/main.cpp:34-35 | The `transform` of the file list by `get_nimages`. Succeeds exactly when every file's row count can be read, giving one count per file in order. Otherwise it fails with the first failing file's error. |
| DimensionPlanner.MaxElement | src/main.cpp:36 | The `max_element` of a non-empty list: an element of the list that no element exceeds. |
| DimensionPlanner.ComputeImageDimensions | src/main.cpp:32-38 | An empty file list is an error. Succeeds exactly when the list is non-empty and every file's row count can be read. Then `nobjects` is the file count, every file's row count is at most `nimages`, and some file has exactly `nimages` rows. Otherwise it fails with the first unreadable file's error. |
| CubeWriter.Padded | src/main.cpp:89-91 | The padded column has length `max(original length, nimages)`, so padding never truncates. The original column is its prefix and every value after it is the sentinel. |
| CubeWriter.PadColumn | src/main.cpp:89-91 | The `push_back` loop leaves exactly the padded column of `Padded`. |
| CubeWriter.Cube | src/main.cpp:61 | The cube built from the objects' columns has `nimages` rows of one value per object. |
| CubeWriter.CubeColumnIsPadded | src/main.cpp:89-94 | Take a cube built from columns that are no longer than `nimages`. It is rectangular, and object `i`'s column is file `i`'s column followed by exactly `nimages - rows` sentinels. |
| CubeWriter.ImageType | src/main.cpp:63-74 | `TDOUBLE` gives `DOUBLE_IMG` and `TINT` gives `LONG_IMG`. Every other type code is an unsupported-type error. |
| CubeWriter.CubeFor | src/main.cpp:85-95 | The pixels left by the per-object loop. Succeeds exactly when there is at least one epoch (or no object) and every file's column can be read. The result has shape `[nimages][nobjects]`, and cell `(j, i)` is file `i`'s value `j` while there is one and the sentinel after. On a failure the error is that of the first file whose column cannot be read, or, with no epochs, `BadPixelBox` once the first column has been read. |
| CubeWriter.CubeForFailsAt | src/main.cpp:85-88 | With at least one epoch, when files `0..i-1` can be read and file `i` cannot, the loop stops with file `i`'s read error. |
| CubeWriter.ImageBlock | src/main.cpp:59-96 | The HDU `create_image_hdu` adds: the mapped pixel type, axes `[nimages, nobjects]`, `EXTNAME` set to the HDU name, and the pixels of `CubeFor`. An unsupported type code is reported before any column is read; otherwise a column or pixel-box error propagates. |
| CubeWriter.WriteColumn | src/main.cpp:89-94 | Pads one column and writes it as the 1-based box `(1, i+1)..(nimages, i+1)`. Image column `i` then holds the padded column, and every other column is unchanged. With no epochs the box is refused and nothing changes. |
| CubeWriter.WriteObjectColumns | src/main.cpp:85-95 | After the loop over the objects, the image's pixels are exactly `CubeFor` of the first `nobjects` files. On a failure, the error is the one `CubeFor` stops with. |
| CubeWriter.CreateImageHdu | src/main.cpp:59-96 | Appends one HDU after the ones already there, leaving them unchanged, so the new HDU is never the first. On success the new HDU is exactly `ImageBlock`. Otherwise the error is `ImageBlock`'s. |
| FitsIo.FitsFile.constructor | src/main.cpp:102 | A newly created file holds no HDU. |
| FitsIo.FitsFile.HduNum | src/main.cpp:77-79 | The 1-based number of the current HDU is the number of HDUs in the file, and it is at least 1 once an HDU exists. |
| FitsIo.FitsFile.CreateImg | src/main.cpp:65 | Appends an HDU of the given pixel type and axes, with no `EXTNAME`, and makes it current. The HDUs before it are unchanged. |
| FitsIo.FitsFile.UpdateExtname | src/main.cpp:82-83 | Sets `EXTNAME` of the current HDU and changes nothing else. |
| FitsIo.FitsFile.WriteSubset | src/main.cpp:92-94 | Refuses a write to an HDU that is not two-dimensional, and refuses a box that does not fit the image. Otherwise each pixel of the box gets the buffer value at its offset, with axis 1 varying fastest, and every pixel outside the box is unchanged. |
| FitsIo.Disk.CreateFile | src/main.cpp:102-103 | An existing path gives `FILE_NOT_CREATED` and changes nothing. A path that cannot be created gives a creation error. Otherwise the result is a fresh, empty file and the path now exists. |
| FitsIo.Disk.Remove | src/main.cpp:105 | The path no longer exists, and no other path changes. |
| Combiner.CreateAndClobber | src/main.cpp:98-114 | When the path can be created, the result is a fresh, empty file, whether or not a file was there before, and the path exists afterwards. Otherwise the result is the creation error, and any file that was there is gone. |
| Combiner.ImageBlocks | src/main.cpp:131-136 | On success, HDU `k` of the result is exactly the HDU for quantity `k`. |
| Combiner.ImageBlocksAllOk | src/main.cpp:131-136 | When every quantity's HDU can be built, the quantities' HDUs are written in quantity order. |
| Combiner.ImageBlocksFailsAt | src/main.cpp:131-136 | When quantities `0..k-1` succeed and quantity `k` fails, the run stops with quantity `k`'s error. |
| Combiner.ImageBlocksOkIff | src/main.cpp:131-136 | The quantities' HDUs can all be written exactly when each one can. |
| Combiner.WriteQuantity | src/main.cpp:131-136 | One `create_image_hdu` call for quantity `k`, over the first `nobjects` files. On every path the HDUs written before it stay a prefix of the file. On success it appends quantity `k`'s HDU after those of quantities `0..k-1`. On failure the error is the one `ImageBlocks` stops with. |
| Combiner.WriteQuantities | src/main.cpp:130-136 | The six calls in order, each given the planned `nobjects` and `nimages`. On every path the HDUs already in the file stay a prefix, so HDUs are only appended. On success the file gains exactly the six HDUs of `ImageBlocks` for the first `nobjects` files; otherwise the run stops with the first failing quantity's error. |
| Combiner.PrimaryHdu | src/main.cpp:128 | The primary HDU that `fits_create_img(fptr, BYTE_IMG, 0, NULL)` creates: `BYTE_IMG`, no axes, no pixels and no `EXTNAME`. |
| Combiner.ExpectedOutput | src/main.cpp:116-136 | The reference definition of what `combine_files` leaves in the output. A planning error is the run's error. A successful run holds the primary HDU followed by one HDU per quantity, and HDU `k + 1` is exactly quantity `k`'s HDU for the planned epoch count. |
| Combiner.CombineFiles | src/main.cpp:116-140 | A planning error is reported before the output is touched, so no file is created. A creation failure is reported as such. Otherwise the output path exists afresh, and the run succeeds exactly when `ExpectedOutput` does. The file then holds exactly the expected HDUs; on failure the error is the expected one. |
| Combiner.OutputLayout | src/main.cpp:126-136 | Every successful run writes exactly seven HDUs: the empty primary HDU, then six HDUs of shape `[nimages, nobjects]`. They are named `HJD`, `FLUX`, `FLUXERR`, `CCDX`, `CCDY`, `QUALITY` in that order; the first five are `DOUBLE_IMG` and the last is `LONG_IMG`. |
| Combiner.OutputCells | src/main.cpp:85-95 | In every cube of a successful run, cell `(j, i)` is file `i`'s value `j` while file `i` has that many rows and the sentinel after. No file has more rows than the cube has epochs. |
| Combiner.OutputColumnIsPadded | src/main.cpp:89-91 | In every cube of a successful run, object `i`'s column is file `i`'s column followed by exactly as many sentinels as the file has fewer rows than the longest file. |
| Combiner.ExpectedOutputSucceeds | src/main.cpp:116-136 | A run succeeds exactly when three things hold: the file list is non-empty, every file is a binary table holding all six columns, and some file has at least one row. |
| Combiner.QuantityBlockOk | src/main.cpp:85-95 | A quantity's HDU can be built when there are epochs to write and every file is a binary table holding its column. |
| Combiner.QuantityBlockFailsAt | src/main.cpp:85-88 | With epochs to write, a quantity's HDU fails with the read error of the first file whose column cannot be read. |
| Combiner.MissingColumnFails | src/main.cpp:49 | Suppose every file is a binary table with rows to read, and quantity `k`'s column is the first one missing, first missing in file `i`. Then the run fails with `ColumnNotFound` naming file `i` and that column. |

## Left out

- The FITS byte format and the library calls are not modelled. This covers opening, moving between HDUs, reading row counts and columns, writing keywords and pixels, and closing. Each is replaced by an abstract value or object.
- Closing the output (`fits_close_file`, src/main.cpp:139) is not modelled, and neither are the closes of the input files. Flushing has no state in this model.
- Column names are matched by exact map lookup. The library's case-insensitive and wildcard matching (`CASEINSEN`, src/main.cpp:49) is not modelled.
- `NULL_VALUE` is an abstract sentinel, not IEEE NaN. The same sentinel is used for the integer `QUALITY` cube, which the program has no integer sentinel for.
- The `TINT` path reads and writes integers through a buffer of doubles (src/main.cpp:43, 53, 94). This byte reinterpretation is not modelled: the element type is abstract, and the model behaves as if each cube were read and written in its own type.
- `exit()` in `fits_check`/`fits_checkp` and the `assert`s are modelled as error results. Process termination is not modelled.
- The assertion that the current HDU is not the first (src/main.cpp:79) is not an error path. The model proves that it holds.
- `CreateAndClobber`: removal always succeeds. So the recursion re-creates at most once, and a removal that fails is not modelled.
- `FileNotCreated` is taken to mean only "the path already exists", as the message at src/main.cpp:104 reads it. With that reading, the fatal branch at src/main.cpp:108-110 is reachable only for a path that cannot be created for another reason (`CreateFailed`), which is what `Disk.unwritable` holds. The library may also report `FILE_NOT_CREATED` when a new file cannot be opened for writing, for example in a missing or read-only directory. In that case the program as written takes the `remove` branch, ignores `remove`'s result (src/main.cpp:105) and calls itself without end. `CreateFailed` for such a path is what the program evidently intends, not what its code does, and the model does not capture the endless recursion.
- Library status codes are not modelled. Each failure is an `Error` constructor, and every creation error other than "file exists" is one `CreateFailed`.
- The library's rule for pixel boxes is modelled as "both corners inside the image, in order". One consequence: with `nimages == 0`, the first pixel write fails with `BadPixelBox`.
- A new image's initial pixel values are unspecified. The program never reads them.
- The output is created on a separate `Disk`. An output path that is also one of the inputs is not modelled.
- The widths of `long` and `int` are not modelled. Counts are unbounded naturals, since row counts and file counts never approach them.
- Command-line parsing (`main`, TCLAP) and all progress logging are not modelled.
- The source code recurses in `create_and_clobber`. A single bounded retry is a suggested redesign, not what the code does, so the model follows the code. With removal always succeeding, the two agree.
