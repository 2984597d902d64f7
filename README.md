# Synthetic fractal image generator, modelled in Dafny

This project models the core of datumaro's synthetic image plugin. The plugin
makes a dataset of fractal images from random Iterated Function Systems (IFS).

- **IFS object** (`IFSFunction` in `utils.py`, modelled by class
  `Ifs.IfsFunction`). It collects affine maps with a cumulative selection
  ladder. It iterates them from (0, 0) to build a point cloud. It scrubs NaN
  runs from the cloud, rescales it to uint16 pixel coordinates inside a padded
  image, and stamps each point (or a random 3x3 patch) into a zero grid. The
  value-level meaning of every step is in module `IfsSpec`.
- **Dataset generator** (`ImageGenerator` in `image_generator.py`, modelled by
  class `ImageGeneration.ImageGenerator`). It works in four steps:
  - It sizes the run: an iteration budget from the image area, and instances
    and categories from the image count and the 25-row weight catalogue.
  - For each category it searches for a random system whose 512 x 512 point
    render lights at least a fifth of the pixels.
  - It expands categories and weight rows into one (table, weight row) entry
    per image, splits that stream into contiguous worker batches and gives
    each batch consecutive indices.
  - It renders every image and saves it as `"{:06d}.png"` of its index.

  Module `Planning` holds the integer bookkeeping: sizing, numpy
  repeat/tile/array_split, and file names.

Randomness is supplied by the caller:
- for each category, a list of tries (the drawn coefficients of 2 to 7 maps and
  the iteration draws);
- for each image, its iteration draws and its 9-bit patch masks.

The output directory is a map from file name to grayscale image. Worker pools
are run one task after the other. An exception of the source is an
`Option.None` or a `false` flag, and the run stops there, as the source's
would.

`calculate` starts its orbit at (0, 0) on every call, from its local
`prev_x, prev_y = 0, 0`, and the model's `Calculate` does the same. `_generator`
calls it once on a fresh object whose stored initial point is (0, 0), so the
cloud is that point followed by the orbit from it.

Main results:
- **The methods meet their specifications.** Each method's result is the value
  of a pure specification: `Calculate` appends the orbit, `Draw` returns the
  `Render` grid, `GenerateCategory` returns the first accepted try, and
  `GenerateDataset` writes the files of `RunOf` the dataset jobs.
- **An accepted table has non-negative weights summing to just below 1**:
  exactly S/(eps+S), where S is the sum of the determinants. Its render meets
  the density threshold.
- **The sizing rule always yields exactly `count` entries**, so the length
  assertion at line 104 never fails.
- **Batches tile the stream.** The split batches concatenate back to the
  stream, and batch b holds exactly the jobs between its boundaries, under
  consecutive indices.
- **File names are injective.** Each reads back as its index, so a complete
  run leaves one file per index holding that image.
- **Every render succeeds** once each side is between 12 and 65541 pixels, in
  exact arithmetic (float overflow and NaN are left out). The cloud has no NaN
  and holds the origin, and rescaling keeps every point and patch inside the
  grid.

## Model

| member | source | states |
|---|---|---|
| Numeric.MinOf | datumaro/plugins/synthetic_images_plugin/utils.py:66-71 | np.min: a lower bound of every element, and itself an element |
| Numeric.MaxOf | datumaro/plugins/synthetic_images_plugin/utils.py:70-71 | np.max: an upper bound of every element, and itself an element |
| Numeric.CeilDiv | datumaro/plugins/synthetic_images_plugin/image_generator.py:174-175 | np.ceil of an exact quotient: the least r with r*d >= n |
| Numeric.RoundHalfEven | datumaro/plugins/synthetic_images_plugin/image_generator.py:166 | np.round: within half of n/d, and even on a tie |
| IfsSpec.Select | datumaro/plugins/synthetic_images_plugin/utils.py:34-39 | the map chosen for a draw is the first whose ladder step is not below it; None exactly when the draw is above every step |
| IfsSpec.SelectInterval | datumaro/plugins/synthetic_images_plugin/utils.py:34-39 | on a non-decreasing ladder, map k is chosen iff the draw lies in (ladder[k-1], ladder[k]] |
| IfsSpec.LadderSnoc | datumaro/plugins/synthetic_images_plugin/utils.py:25-26 | adding a probability appends the new running total to the ladder |
| IfsSpec.LadderMonotone | datumaro/plugins/synthetic_images_plugin/utils.py:25-26 | non-negative probabilities give a non-decreasing ladder |
| IfsSpec.SelectWithinTotal | datumaro/plugins/synthetic_images_plugin/utils.py:33-39 | a draw selects some map iff it is not above the sum of the probabilities |
| IfsSpec.StepAboveLadder | datumaro/plugins/synthetic_images_plugin/utils.py:31-44 | a draw above the top of the ladder leaves the point where it was |
| IfsSpec.Step | datumaro/plugins/synthetic_images_plugin/utils.py:33-44 | one iteration: the map the draw selects applied to the previous point, or the previous point when no map is selected |
| IfsSpec.Orbit | datumaro/plugins/synthetic_images_plugin/utils.py:28-44 | the points calculate appends: one Step per draw, in order, starting from (0, 0) |
| IfsSpec.OrbitCoordsSnoc | datumaro/plugins/synthetic_images_plugin/utils.py:33-44 | each iteration appends exactly the next orbit point's x and y and makes it the new previous point |
| IfsSpec.NanIndices | datumaro/plugins/synthetic_images_plugin/utils.py:48 | np.where(isnan): increasing positions, each of a NaN |
| IfsSpec.NanIndicesComplete | datumaro/plugins/synthetic_images_plugin/utils.py:48 | every NaN position is listed |
| IfsSpec.NanIndicesFirst | datumaro/plugins/synthetic_images_plugin/utils.py:48-49 | nothing before the first listed position is NaN |
| IfsSpec.ProcessNans | datumaro/plugins/synthetic_images_plugin/utils.py:46-51 | the rows to delete: the 100 positions before the first NaN, counting up to it, then all NaN positions |
| IfsSpec.ProcessNansRows | datumaro/plugins/synthetic_images_plugin/utils.py:46-51 | row 100 is the first NaN, and every NaN is among the rows from 100 on |
| IfsSpec.Kept | datumaro/plugins/synthetic_images_plugin/utils.py:58-59 | the surviving positions of np.delete: exactly those not deleted, increasing |
| IfsSpec.Delete | datumaro/plugins/synthetic_images_plugin/utils.py:58-59 | np.delete: fails iff a row is outside [-n, n); otherwise keeps the other elements in order, with negative rows counted from the end |
| IfsSpec.NanRowsDeleted | datumaro/plugins/synthetic_images_plugin/utils.py:56-59 | the rows process_nans marks cover every NaN position |
| IfsSpec.DeleteNanRows | datumaro/plugins/synthetic_images_plugin/utils.py:56-64 | deleting the marked rows leaves no NaN, and succeeds on one axis iff on the other |
| IfsSpec.DeleteKeepsNoNaN | datumaro/plugins/synthetic_images_plugin/utils.py:61-64 | deleting rows from a NaN-free axis keeps it NaN-free |
| IfsSpec.Scrub | datumaro/plugins/synthetic_images_plugin/utils.py:56-64 | after the two scrubs both axes are NaN-free, paired and no longer; a NaN-free cloud is untouched |
| IfsSpec.PixelsOfCoords | datumaro/plugins/synthetic_images_plugin/utils.py:72-78 | pixel coordinates stored back into the cloud read out unchanged as indices |
| IfsSpec.Uint16 | datumaro/plugins/synthetic_images_plugin/utils.py:72-73 | np.uint16 of a double: in [0, 65536), and the floor of any value already in range |
| IfsSpec.Shifted | datumaro/plugins/synthetic_images_plugin/utils.py:66-69 | an axis with a negative minimum is shifted by it; otherwise left alone |
| IfsSpec.ShiftedRange | datumaro/plugins/synthetic_images_plugin/utils.py:66-71 | after the shift the minimum is 0 and the range is unchanged |
| IfsSpec.ScaleCoord | datumaro/plugins/synthetic_images_plugin/utils.py:72-73 | one coordinate divided by the axis range, stretched to [pad, dim - pad] and cast to uint16, always a uint16 value; 0 when the range is zero |
| IfsSpec.RescaleAxis | datumaro/plugins/synthetic_images_plugin/utils.py:66-73 | one axis shifted to a non-negative minimum and each coordinate scaled, keeping the axis length |
| IfsSpec.ScaleCoordBounds | datumaro/plugins/synthetic_images_plugin/utils.py:72-73 | a coordinate in [0, max] lands in [pad, dim - pad] |
| IfsSpec.RescaleAxisBounds | datumaro/plugins/synthetic_images_plugin/utils.py:66-73 | an axis through the origin with non-zero range lands in [pad, dim - pad]; with zero range every coordinate is 0 |
| IfsSpec.RescaleSpec | datumaro/plugins/synthetic_images_plugin/utils.py:53-73 | rescale yields paired uint16 coordinates, no more than the cloud had, or fails |
| IfsSpec.Bit | datumaro/plugins/synthetic_images_plugin/utils.py:82-83 | each digit of the '{:09b}' mask is 0 or 1 |
| IfsSpec.MaskHasSetBit | datumaro/plugins/synthetic_images_plugin/utils.py:82-83 | a mask from randint(1, 512) has a set bit |
| IfsSpec.LowDigitsMod | datumaro/plugins/synthetic_images_plugin/utils.py:82 | the last k digits of the '{:09b}' string read back as binary give the mask modulo 2^k |
| IfsSpec.MaskDigits | datumaro/plugins/synthetic_images_plugin/utils.py:82 | the nine digits of '{:09b}' read back give every mask in [0, 511], so no bit of the mask is lost |
| IfsSpec.PixelAfter | datumaro/plugins/synthetic_images_plugin/utils.py:77-84 | a cell after the first k points: the value the last point covering it wrote, or 0 |
| IfsSpec.Canvas | datumaro/plugins/synthetic_images_plugin/utils.py:77-84 | the grid after every point is drawn, image_x rows of image_y cells |
| IfsSpec.Render | datumaro/plugins/synthetic_images_plugin/utils.py:75-86 | draw as a value: the rescaled points stamped into a zero image_x by image_y grid, or None where rescale raises or a write leaves the grid |
| IfsSpec.PixelIsBinary | datumaro/plugins/synthetic_images_plugin/utils.py:77-84 | every cell of a drawing is 0 or 127 |
| IfsSpec.PointStaysLit | datumaro/plugins/synthetic_images_plugin/utils.py:78-80 | in point mode every drawn point's cell ends up 127 |
| IfsSpec.LastPatchLit | datumaro/plugins/synthetic_images_plugin/utils.py:82-84 | in patch mode some cell of the last point's 3x3 block is 127 after it is stamped |
| Ifs.Weighted | datumaro/plugins/synthetic_images_plugin/utils.py:21-22 | coefficients multiplied element-wise by the weight row, or unchanged without one |
| Ifs.IfsFunction.constructor | datumaro/plugins/synthetic_images_plugin/utils.py:14-18 | no maps, an empty ladder, total 0, and the cloud holding only the initial point |
| Ifs.IfsFunction.SetParam | datumaro/plugins/synthetic_images_plugin/utils.py:20-26 | appends the weighted map, adds the probability to the total and appends the new total to the ladder, which stays the running sum of the probabilities |
| Ifs.IfsFunction.Calculate | datumaro/plugins/synthetic_images_plugin/utils.py:28-44 | appends to xs and ys the orbit from (0, 0) under the draws; maps and ladder unchanged |
| Ifs.IfsFunction.Rescale | datumaro/plugins/synthetic_images_plugin/utils.py:53-73 | succeeds iff RescaleSpec does, and then the cloud holds its uint16 coordinates; on failure the cloud is untouched |
| Ifs.IfsFunction.Draw | datumaro/plugins/synthetic_images_plugin/utils.py:75-86 | returns a fresh grid that is exactly the Render grid of the cloud, failing exactly when Render does; leaves the cloud rescaled as RescaleSpec gives it, or untouched when rescaling fails |
| Ifs.Paint | datumaro/plugins/synthetic_images_plugin/utils.py:77-84 | the stamping loop fails iff some write leaves the grid, and otherwise yields the Canvas |
| Ifs.StepPoint | datumaro/plugins/synthetic_images_plugin/utils.py:34-39 | the inner loop computes exactly one Step |
| Ifs.Stamp | datumaro/plugins/synthetic_images_plugin/utils.py:79-84 | writes 127 or the mask patch to the covered cells and keeps every other cell |
| Planning.PointBudget | datumaro/plugins/synthetic_images_plugin/image_generator.py:165-167 | a multiple of 100000 whose factor is 1 exactly when the area is below 1.5 reference areas, and otherwise the nearest number of 362x362 areas, the even one on a tie |
| Planning.RoundedAboveOne | datumaro/plugins/synthetic_images_plugin/image_generator.py:166 | the rounded area is at least 2 exactly when the area is at least 1.5 reference areas, which is where max(1, ...) stops mattering |
| Planning.SizingRule | datumaro/plugins/synthetic_images_plugin/image_generator.py:169-175 | a small count gives one category, one instance and count rows; otherwise instances is the least with 4*rows*instances >= count; categories*instances*rows covers count by less than one block |
| Planning.Repeat | datumaro/plugins/synthetic_images_plugin/image_generator.py:99 | np.repeat along axis 0: each element n times in place, n times the length |
| Planning.RepeatAt | datumaro/plugins/synthetic_images_plugin/image_generator.py:99 | entry k of a repeat is element k / n |
| Planning.Tile | datumaro/plugins/synthetic_images_plugin/image_generator.py:100 | np.tile along axis 0: the whole sequence n times, n times the length |
| Planning.TileAt | datumaro/plugins/synthetic_images_plugin/image_generator.py:100 | entry k of a tiling is element k mod the length |
| Planning.PerImage | datumaro/plugins/synthetic_images_plugin/image_generator.py:99-104 | the per-image stream passes the length assertion iff both expansions reach count, and then holds count entries |
| Planning.PerImageEntries | datumaro/plugins/synthetic_images_plugin/image_generator.py:99-103 | image j carries category j / block and weight row (j mod block) / instances |
| Planning.SizedStreamIsExact | datumaro/plugins/synthetic_images_plugin/image_generator.py:104 | for the sizing rule's plan the length assertion always holds |
| Planning.Boundary | datumaro/plugins/synthetic_images_plugin/image_generator.py:106-108 | where array_split's section i starts: i * (l / n) plus one for each earlier longer section |
| Planning.Section | datumaro/plugins/synthetic_images_plugin/image_generator.py:106-108 | section i of array_split: the stream between boundaries i and i + 1, one longer for the first l mod n sections |
| Planning.BoundaryEnd | datumaro/plugins/synthetic_images_plugin/image_generator.py:106-108 | the last section of array_split ends at the stream's end |
| Planning.ArraySplit | datumaro/plugins/synthetic_images_plugin/image_generator.py:106-108 | n sections, the first len mod n of them one longer, none empty when n <= len |
| Planning.SplitConcat | datumaro/plugins/synthetic_images_plugin/image_generator.py:106-108 | the sections concatenate back to the stream |
| Planning.SplitAt | datumaro/plugins/synthetic_images_plugin/image_generator.py:106-108 | entry p of section b is stream entry boundary(b) + p |
| Planning.SplitAligned | datumaro/plugins/synthetic_images_plugin/image_generator.py:107-108 | the parameter and weight streams are cut at the same places |
| Planning.SplitOffset | datumaro/plugins/synthetic_images_plugin/image_generator.py:111-114 | the offset after b sections is section b's boundary |
| Planning.FileName | datumaro/plugins/synthetic_images_plugin/image_generator.py:134 | the name is digits followed by ".png" |
| Planning.FileNameIndex | datumaro/plugins/synthetic_images_plugin/image_generator.py:134 | the digits of a name read back as its index |
| Planning.FileNameInjective | datumaro/plugins/synthetic_images_plugin/image_generator.py:134 | distinct indices never share a file name |
| Planning.FileNameWidth | datumaro/plugins/synthetic_images_plugin/image_generator.py:134 | indices below one million get names of exactly ten characters |
| ImageGeneration.CategoryTable | datumaro/plugins/synthetic_images_plugin/image_generator.py:150-158 | one row per drawn map, holding its six coefficients then its determinant divided by eps plus the sum of all determinants (a non-negative sum) |
| ImageGeneration.CategoryProbabilities | datumaro/plugins/synthetic_images_plugin/image_generator.py:152-158 | the probabilities are non-negative and sum to S/(eps+S), below 1 |
| ImageGeneration.Maps | datumaro/plugins/synthetic_images_plugin/image_generator.py:140-141 | the maps the generator sets up: each row's first six entries, weighted |
| ImageGeneration.CloudXs | datumaro/plugins/synthetic_images_plugin/image_generator.py:139-142 | the x cloud of a render: the origin then one NaN-free point per draw |
| ImageGeneration.CloudYs | datumaro/plugins/synthetic_images_plugin/image_generator.py:139-142 | the y cloud of a render: the origin then one NaN-free point per draw |
| ImageGeneration.GeneratorSpec | datumaro/plugins/synthetic_images_plugin/image_generator.py:136-144 | what _generator returns: a fresh system built from the table, iterated once per draw and drawn with padding 6, as a height by width grid, or None where the source raises |
| ImageGeneration.AxisFits | datumaro/plugins/synthetic_images_plugin/utils.py:66-73 | a rescaled axis through the origin keeps every coordinate and its 3x3 patch inside the dimension |
| ImageGeneration.GeneratorRenders | datumaro/plugins/synthetic_images_plugin/image_generator.py:136-144 | a render never fails when each side is between 12 and 65541 |
| ImageGeneration.Accepted | datumaro/plugins/synthetic_images_plugin/image_generator.py:148-161 | a try is accepted when its table's 512 x 512 point render lights at least 0.2 of the pixels |
| ImageGeneration.TabulateAt | datumaro/plugins/synthetic_images_plugin/image_generator.py:148-161 | the t-th entry of a tabulation is the predicate at the t-th try |
| ImageGeneration.VerdictAt | datumaro/plugins/synthetic_images_plugin/image_generator.py:160-161 | the t-th verdict is whether the t-th try's render is dense enough |
| ImageGeneration.VerdictsUnique | datumaro/plugins/synthetic_images_plugin/image_generator.py:148-161 | a list holds every try's verdict iff it is the verdict list |
| ImageGeneration.FirstTrue | datumaro/plugins/synthetic_images_plugin/image_generator.py:148 | the first true position, with every position before it false |
| ImageGeneration.FirstAccepted | datumaro/plugins/synthetic_images_plugin/image_generator.py:147-161 | the loop stops at the first try dense enough, every earlier try being rejected |
| ImageGeneration.SearchSpec | datumaro/plugins/synthetic_images_plugin/image_generator.py:146-162 | what _generate_category returns for a list of tries: the table of the first accepted try, or None when none is |
| ImageGeneration.SearchResult | datumaro/plugins/synthetic_images_plugin/image_generator.py:147-162 | an accepted table has 2 to 7 rows, non-negative probabilities summing below 1, and a render lighting at least a fifth of the grid |
| ImageGeneration.WriteAll | datumaro/plugins/synthetic_images_plugin/image_generator.py:134 | the output directory after each (name, image) pair is written in order, a later write of a name replacing an earlier one |
| ImageGeneration.WriteAllSnoc | datumaro/plugins/synthetic_images_plugin/image_generator.py:134 | one more imwrite updates just that name |
| ImageGeneration.WriteAllAppend | datumaro/plugins/synthetic_images_plugin/image_generator.py:117-118 | writing batch after batch equals writing their concatenation |
| ImageGeneration.WriteAllKeys | datumaro/plugins/synthetic_images_plugin/image_generator.py:130-134 | after a run the directory holds exactly the old names and the written ones |
| ImageGeneration.WriteAllValues | datumaro/plugins/synthetic_images_plugin/image_generator.py:130-134 | with distinct names every written name holds its own image |
| ImageGeneration.ImageGenerator.constructor | datumaro/plugins/synthetic_images_plugin/image_generator.py:40-89 | keeps count and size, caps workers at min(cpus, count), loads the weight catalogue, leaves the plan unset |
| ImageGeneration.ImageGenerator.InitializeParams | datumaro/plugins/synthetic_images_plugin/image_generator.py:164-175 | sets the budget, instances, categories and kept weight rows of the sizing rule; nothing else changes |
| ImageGeneration.ImageGenerator.Generator | datumaro/plugins/synthetic_images_plugin/image_generator.py:136-144 | returns exactly the GeneratorSpec grid, and fails exactly when it does |
| ImageGeneration.ImageGenerator.GenerateCategory | datumaro/plugins/synthetic_images_plugin/image_generator.py:146-162 | returns the table of the first accepted try and its position, or None when every try is rejected |
| ImageGeneration.ImageGenerator.SearchCategories | datumaro/plugins/synthetic_images_plugin/image_generator.py:96-97 | one search per category in order: all tables, or the first category whose search finds none, every earlier one having succeeded |
| ImageGeneration.ImageGenerator.SearchOne | datumaro/plugins/synthetic_images_plugin/image_generator.py:97 | the search of category c yields that category's search outcome |
| ImageGeneration.ImageGenerator.GenerateDataset | datumaro/plugins/synthetic_images_plugin/image_generator.py:91-118 | applies the sizing rule; no workers and a failed search write nothing; otherwise the directory is the old one plus the files of the dataset run, and Done iff every image rendered |
| ImageGeneration.ImageGenerator.RunBatches | datumaro/plugins/synthetic_images_plugin/image_generator.py:99-118 | rendering the split batches in order writes exactly the files of running the whole per-image job list |
| ImageGeneration.ImageGenerator.RunSplit | datumaro/plugins/synthetic_images_plugin/image_generator.py:117-118 | the batch loop writes exactly the run of the whole job list, and succeeds iff it is complete |
| ImageGeneration.ImageGenerator.RunBatch | datumaro/plugins/synthetic_images_plugin/image_generator.py:112-118 | batch b extends the run of the earlier batches by the run of the jobs between its boundaries |
| ImageGeneration.ImageGenerator.GenerateImageBatch | datumaro/plugins/synthetic_images_plugin/image_generator.py:120-134 | saves each job's render under its index's name, in order, stopping at the first render that fails |
| ImageGeneration.SearchLoop | datumaro/plugins/synthetic_images_plugin/image_generator.py:147-161 | the while loop stops after the first accepted try, or rejects them all |
| ImageGeneration.SearchConclusion | datumaro/plugins/synthetic_images_plugin/image_generator.py:147-162 | the loop's stopping point is the first accepted try and decides the returned table |
| ImageGeneration.TryAttempt | datumaro/plugins/synthetic_images_plugin/image_generator.py:149-161 | one pass builds the try's table, and its pixel share reaches the threshold iff the try is accepted |
| ImageGeneration.SetUp | datumaro/plugins/synthetic_images_plugin/image_generator.py:139-141 | a fresh IFS at the origin holding the table's weighted maps and its probability ladder |
| ImageGeneration.FirstTrueIs | datumaro/plugins/synthetic_images_plugin/image_generator.py:148 | a position with only false before it, and true or the end at it, is the first true one |
| ImageGeneration.BuildTable | datumaro/plugins/synthetic_images_plugin/image_generator.py:150-158 | the filled and normalised params array is the category table |
| ImageGeneration.FillRows | datumaro/plugins/synthetic_images_plugin/image_generator.py:150-157 | each row holds a map's coefficients and its determinant, and the total is eps plus their sum |
| ImageGeneration.SetRow | datumaro/plugins/synthetic_images_plugin/image_generator.py:157 | one row written and every other row kept |
| ImageGeneration.RunOf | datumaro/plugins/synthetic_images_plugin/image_generator.py:130-134 | the files a list of jobs saves in order, each under its index's name, stopping at the first render that fails, and whether every job got its image |
| ImageGeneration.RunOfComplete | datumaro/plugins/synthetic_images_plugin/image_generator.py:130-134 | a run is complete iff no render fails |
| ImageGeneration.RunOfOuts | datumaro/plugins/synthetic_images_plugin/image_generator.py:130-134 | a complete run writes one file per job, in order, named by the job's index and holding its image |
| ImageGeneration.RunOfAppend | datumaro/plugins/synthetic_images_plugin/image_generator.py:117-118 | running two job lists in turn is running their concatenation |
| ImageGeneration.RunOfStopped | datumaro/plugins/synthetic_images_plugin/image_generator.py:130-134 | once a render fails nothing more is written |
| ImageGeneration.RunOfSnoc | datumaro/plugins/synthetic_images_plugin/image_generator.py:130-134 | each loop pass extends the run by one job's file, or stops it |
| ImageGeneration.SearchResultsUnique | datumaro/plugins/synthetic_images_plugin/image_generator.py:96-97 | a list holds every category's search outcome iff it is the list of outcomes |
| ImageGeneration.CollectAll | datumaro/plugins/synthetic_images_plugin/image_generator.py:96-97 | collecting succeeds iff every search found a table, keeping them in category order |
| ImageGeneration.DatasetJobs | datumaro/plugins/synthetic_images_plugin/image_generator.py:99-115 | one job per image, job j saved under index j |
| ImageGeneration.RenderJob | datumaro/plugins/synthetic_images_plugin/image_generator.py:131 | the call to the generator renders exactly the job's image |
| ImageGeneration.AssignIndices | datumaro/plugins/synthetic_images_plugin/image_generator.py:110-115 | batch b gets the consecutive indices that follow all earlier batches |
| ImageGeneration.BatchIndicesCover | datumaro/plugins/synthetic_images_plugin/image_generator.py:110-115 | the batches' index lists, in order, are exactly 0..len-1: the final offset is the stream length, with no gap or repeat |
| ImageGeneration.BatchJobs | datumaro/plugins/synthetic_images_plugin/image_generator.py:106-115 | batch b's jobs are exactly the stream's jobs between its boundaries, with their indices |
| ImageGeneration.RunSavesEveryImage | datumaro/plugins/synthetic_images_plugin/image_generator.py:130-134 | a run with every image rendered leaves the old files plus one file per index 0..n-1, each holding its image |
| ImageGeneration.DatasetRendersAll | datumaro/plugins/synthetic_images_plugin/image_generator.py:130-131 | with each side between 12 and 65541 every dataset render succeeds, so the run is complete |

## Left out

- The command-line entry point (`generate.py`) is not part of this model.
- The output directory handling of the constructor is left out: the emptiness check, overwrite/rmtree, `SourceExistsError` and mkdir. The directory is a map that starts empty.
- Downloading and loading the colorization network, `colorize` and `augment` are left out, because they are foreign code (OpenCV DNN, image filters). The model saves the grayscale render that they would transform.
- `cv.imwrite` is a map update. Encoding and disk errors are not modelled.
- `np.random.seed(0)` and every random draw become caller-supplied parameters. This covers the map count of 2 to 7, the coefficients, the iteration draws and the patch masks. The coefficients are not restricted to [-1, 1], so the model covers any real coefficients.
- `os.cpu_count()` is a constructor parameter. Its `None` result, and the `TypeError` it would cause, are not modelled.
- The process pools run their tasks one after the other. When a render fails, the model stops at that image. In the source, other workers may already have written files from later batches.
- ImageGeneration.ImageGenerator.GenerateCategory: the source loops until a try is accepted. The model takes a finite list of tries and returns None when all are rejected (and `GenerateDataset` then reports `SearchExhausted`). A search that never succeeds, which loops forever in the source, is not modelled.
- `Pool(processes=0)` raises, which happens when the count is 0. The model reports this as `NoWorkers`.
- ImageGeneration.ImageGenerator.constructor: the count, height and width are natural numbers. The source's constructor (image_generator.py:40-57) accepts any int. A negative count makes the worker count negative, so `Pool` raises `ValueError` at image_generator.py:96 before any category is drawn. A negative height or width fails when `np.zeros` allocates the canvas in `IFSFunction.draw` (utils.py:77). Neither failure is modelled.
- Numbers are exact reals. This leaves out:
  - the float32 storage of the category table and float64 rounding;
  - overflow to infinity;
  - NaN produced by arithmetic. The orbit never yields NaN in exact arithmetic, but the scrub is still modelled for NaN inputs.
  - Where the source divides by a zero coordinate range, it gets NaN (0/0) or infinity (a non-zero coordinate over 0). The model writes coordinate 0 for both, as numpy's uint16 conversion of either gives on x86-64.
- The size arithmetic is exact: `np.round(h*w/362**2)`, `np.ceil(0.25*count/rows)` and the 0.2 threshold are computed without float rounding. This matches the float computation for any realistic count.
- Ifs.Stamp: the patch slice `x+1:x+4` is computed in uint16 in the source and would wrap for x >= 65532. The model adds without wrap, which differs only for images taller or wider than 65535 pixels.
- `np.repeat` over category tables with different row counts is a ragged array, which recent numpy refuses. The model treats the tables as a list, as the code evidently intends.
