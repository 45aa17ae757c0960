# chicago-places, modelled in Dafny

The chicago-places scripts assemble a neighbourhood dataset for Chicago. The
pieces are:

- American Community Survey tables from the Census API;
- geocoded addresses;
- Google Street View imagery, validated and then scraped through AWS Lambda;
- semantic segmentation of those images and of the Place Pulse 2.0 images, with a
  greenery index derived from the segments;
- cleaned 311 and crime records from the City of Chicago data portal.

This project models the deterministic core of those scripts and proves what the
code promises about it. Every network service, the geocoder, the Street View
metadata and image services and the segmentation network are parameters of the
model (oracle functions). Data frames are sequences of records.

One module per script, plus four shared modules:

- `Wrappers`: Option and Result.
- `Text`: decimal rendering, ASCII lower-casing and substring tests.
- `Frames`: the row operations of the data-frame library, which are masks,
  `drop_duplicates`, concatenation and counting, plus the paged fetch list.
- `Segmentation`: the per-image count row, the superbatch windows and the parquet
  file the segmentation scripts checkpoint into.

Python `str.lower` is ASCII-only in the model.

Where the code departs from what it evidently means to do, the model follows the
code. It also carries a corrected version, and the pair is listed under Findings.

## Model

| member | source | states |
|---|---|---|
| `CensusFriendo.GenerateGeography` | scripts/census/CensusFriendo.py:28-46 | Succeeds exactly when the lower-cased geography is one of us/state/county/tract, a tract request names a state, and a given state is a FIPS code. Each failed check yields its own assertion message. The fragment starts `for=<geography>:*`. |
| `CensusFriendo.GenerateGeographyRoundTrip` | scripts/census/CensusFriendo.py:41-46 | Parsing an accepted fragment gives back the lower-cased geography and the state, so the fragment loses neither input. |
| `CensusFriendo.StateTail` | scripts/census/CensusFriendo.py:43-44 | The `&in=state:` part is present exactly when a state is given. |
| `CensusFriendo.KeepColumnsDrops` | scripts/census/CensusFriendo.py:67-69 | After the drops, no state, county or tract column is left in the header. |
| `CensusFriendo.KeepColumnsIsFilter` | scripts/census/CensusFriendo.py:67-69 | The reduced header is the header with exactly the state, county and tract labels filtered out, every other label kept in order. |
| `CensusFriendo.KeepColumnsAligned` | scripts/census/CensusFriendo.py:67-69 | The kept positions are increasing and include every column that is not state, county or tract. Kept cell j of a row is the row's cell at kept position j, which is the column of kept header cell j. |
| `CensusFriendo.KeepColumnsWidth` | scripts/census/CensusFriendo.py:67-69 | Dropping the same columns from the header and from a row of equal width leaves them of equal width. |
| `CensusFriendo.ColumnOr` | scripts/census/CensusFriendo.py:64-65 | `df.get(col, '')` is `''` for an absent column and otherwise a cell of the row. |
| `CensusFriendo.ApiReturnToFrame` | scripts/census/CensusFriendo.py:59-62 | Fails with IndexError exactly on an empty response or an empty header (`lst[0][0] = name` raises). Fails with ValueError exactly when the renamed header carries one of us, state, county or tract twice: `df.get` then gives two columns for the single GEOID column. Succeeds otherwise. |
| `CensusFriendo.ApiReturnToFrameRows` | scripts/census/CensusFriendo.py:59-71 | On a response with a header and no repeated geography column, the first header cell becomes the table's name and state/county/tract are dropped. There is one row per data row. GEOID is appended to the header and to each row's kept cells, except for a table named GEOID, whose column keeps its place and holds the codes instead of its values. |
| `CensusFriendo.ConvertRowsAt` | scripts/census/CensusFriendo.py:62-69 | Row k of the frame is data row k with state, county and tract dropped and its GEOID appended. |
| `CensusFriendo.GeoidNamedTableExample` | scripts/census/CensusFriendo.py:59-64 | A tract response for a table named GEOID becomes the single column GEOID holding the codes; the table's value is lost. |
| `CensusFriendo.RepeatedGeographyExample` | scripts/census/CensusFriendo.py:59-64 | A county response for a table named `state` fails with ValueError. |
| `CensusFriendo.ApiReturnToFrameRectangular` | scripts/census/CensusFriendo.py:59-71 | Every converted row is exactly as wide as the converted header. |
| `CensusFriendo.TractResponseExample` | scripts/census/CensusFriendo.py:59-71 | A tract response `[[table, "state", "county", "tract"], [value, st, co, tr]]` becomes the one row `[value, st + co + tr]` under `[name, "GEOID"]`. |
| `CensusFriendo.NationResponseExample` | scripts/census/CensusFriendo.py:59-71 | A national response keeps its `us` column, and its code alone forms the GEOID. |
| `CensusFriendo.NormaliseTables` | scripts/census/CensusFriendo.py:116-118 | A list becomes its identity entries, a string a one-entry map, and a dict itself. Any other kind fails the type assertion, and the keys are always distinct. |
| `CensusFriendo.IdentityEntries` | scripts/census/CensusFriendo.py:117 | The dict comprehension over a list holds the entry (t, t) exactly for the names t of the list, once each, in the order of their first occurrence in the list. |
| `CensusFriendo.CensusFriendo.MakeApiUrl` | scripts/census/CensusFriendo.py:73-80 | Succeeds exactly when the geography is accepted. The URL is base/year/acs/survey?get=table&fragment&key=API key, and a failure is the fragment's own failure. |
| `CensusFriendo.CensusFriendo.FetchTables` | scripts/census/CensusFriendo.py:82-93 | The loop of `get_acs`: the URLs requested are, in order, those built from the tables. Each converted frame is its URL's response converted under its column name. It stops at the first URL that cannot be built, requesting nothing for it, or at the first response that cannot be converted, the last one requested. |
| `CensusFriendo.CensusFriendo.GetAcs` | scripts/census/CensusFriendo.py:82-125 | An unsupported survey or tables argument fails before any request. Otherwise one URL per table is requested in map order, and each merged table is that table's converted response. No tables gives None. With an accepted geography, and every response convertible under every table's column name, the call succeeds. |
| `CensusFriendo.StateFipsShape` | scripts/census/CensusFriendo.py:7-12 | The state list holds 51 codes, including 11 (District of Columbia) and 17 (Illinois). |
| `GeocodeFren.GeocodeFren.Request` | scripts/GoogleApiBuddy/GeocodeFren.py:34-39 | The request carries `sensor=false`, the key, and the address, city and state joined by spaces. |
| `GeocodeFren.GeocodeFren.GeocodePoint` | scripts/GoogleApiBuddy/GeocodeFren.py:20-51 | At most two requests. The first is for the full address, and a second, city-and-state only, is made only when an address was given. The answer is either a result location or the sentinel (-999, -999). |
| `GeocodeFren.GeocodeFren.GeocodeFirstResult` | scripts/GoogleApiBuddy/GeocodeFren.py:40-51 | When the full address has results, the first result's location is returned after one request. |
| `GeocodeFren.GeocodeFren.GeocodeFallback` | scripts/GoogleApiBuddy/GeocodeFren.py:43-49 | When a given address has no result, the answer is the city-and-state lookup, made as the second request. |
| `GeocodeFren.GeocodeFren.GeocodeSentinel` | scripts/GoogleApiBuddy/GeocodeFren.py:43-46 | When nothing is found at either granularity, the answer is the sentinel, after at most one retry. |
| `GeocodeFren.AddressTuples` | scripts/GoogleApiBuddy/GeocodeFren.py:83-84 | One (address, city, state) tuple per row of the frame, or the list as given. |
| `GeocodeFren.ResolveInputs` | scripts/GoogleApiBuddy/GeocodeFren.py:73-87 | An id list of the wrong length fails first. Then a frame missing Address, State or City fails, checked in that order, each with its own message. An id column on a list of tuples fails with TypeError, and one absent from the frame with KeyError. It succeeds exactly when none of these applies. The ids are then the list, the named column, or the space-joined address tuples. |
| `GeocodeFren.GeocodeFren.GeocodeAddresses` | scripts/GoogleApiBuddy/GeocodeFren.py:53-96 | Succeeds exactly when the inputs resolve. The id, lat and long columns then line up with the inputs, and each row's point is that address's geocoded point. A failure makes no request. |
| `LambdaFunction.RequestUrlShape` | scripts/StreetviewDataMassaging/aws_scrapers/deployment_packages/lambda_function.py:16-34 | A request URL is the metadata or image endpoint followed by the parameter string. |
| `LambdaFunction.ImageSizeText` | scripts/StreetviewDataMassaging/aws_scrapers/deployment_packages/lambda_function.py:12-22 | The size parameter renders as `600x400`. |
| `LambdaFunction.ParametersInFixedOrder` | scripts/StreetviewDataMassaging/aws_scrapers/deployment_packages/lambda_function.py:22-29 | The parameter string is the query of six parameters, in the order size, heading, source, return_error_code, key, location. |
| `LambdaFunction.MetadataAndImageShareParameters` | scripts/StreetviewDataMassaging/aws_scrapers/deployment_packages/lambda_function.py:31-34 | The metadata and image URLs for the same parameters differ only in their endpoint. |
| `LambdaFunction.IsValidCall` | scripts/StreetviewDataMassaging/aws_scrapers/deployment_packages/lambda_function.py:36-48 | Fails exactly when the metadata call raises. Otherwise it is true exactly when the status is OK. |
| `LambdaFunction.S3Bucket.UploadFileobj` | scripts/StreetviewDataMassaging/aws_scrapers/deployment_packages/lambda_function.py:86-93 | The bucket afterwards maps the key to the uploaded bytes, and every other key is unchanged. |
| `LambdaFunction.HandleRequest` | scripts/StreetviewDataMassaging/aws_scrapers/deployment_packages/lambda_function.py:70-98 | One iteration: the metadata check, then, only for a passing request, the image fetch and the upload under the request's ID. A raising check fails before any upload. |
| `LambdaFunction.HandledPrefix` | scripts/StreetviewDataMassaging/aws_scrapers/deployment_packages/lambda_function.py:69-101 | The requests handled are a prefix of the event. Each of them has a metadata call that returns, and the first request not handled has one that raises. |
| `LambdaFunction.LambdaHandler` | scripts/StreetviewDataMassaging/aws_scrapers/deployment_packages/lambda_function.py:63-101 | The calls made are the event's calls in order, up to the first raising metadata call. The handler completes exactly when every request was handled, and the bucket holds exactly the uploads made. |
| `LambdaFunction.UploadsAreThePassingRequests` | scripts/StreetviewDataMassaging/aws_scrapers/deployment_packages/lambda_function.py:69-93 | The upload keys are exactly the IDs of the handled requests that pass the check, in event order. |
| `LambdaFunction.FetchFollowsCheck` | scripts/StreetviewDataMassaging/aws_scrapers/deployment_packages/lambda_function.py:77-93 | Every image fetch comes right after an OK metadata check of the same parameters and right before the upload of the fetched bytes. Both URLs share their parameter string. |
| `LambdaFunction.IntendedUploadsAllPassing` | scripts/StreetviewDataMassaging/aws_scrapers/deployment_packages/lambda_function.py:99-101 | Under the skip-and-continue handler that the log message describes, every passing request of the event is uploaded, in order. |
| `LambdaFunction.HandlerStopsAtRaisingCheck` | scripts/StreetviewDataMassaging/aws_scrapers/deployment_packages/lambda_function.py:99-101 | When the first request's check raises and the second passes, the handler as written uploads nothing, while the intended handler uploads the second request. |
| `ValidatePoints.SameUrlAsLambda` | scripts/StreetviewDataMassaging/validate_points.py:15-28 | The validation pass's metadata URL is, character for character, the one the Lambda sends for the same location, key and heading. |
| `ValidatePoints.RecordRow` | scripts/StreetviewDataMassaging/validate_points.py:46-60 | Each row keeps the point's ID, the heading drawn and the status. Date, longitude and latitude are `NA` unless the status is OK, and then they come from the response. |
| `ValidatePoints.ValidatePointList` | scripts/StreetviewDataMassaging/validate_points.py:36-71 | Succeeds exactly when every metadata response can be read. The six columns are then aligned, and row k is the row recorded for point k from its response to its heading. |
| `PullImages.ArraySplit` | scripts/StreetviewDataMassaging/aws_scrapers/pull_images.py:23 | `np.array_split` into n chunks: the first len % n chunks hold one extra row, and together the chunks are the input. |
| `PullImages.BatchesCoverRows` | scripts/StreetviewDataMassaging/aws_scrapers/pull_images.py:23-40 | Across the batches, every row's request appears exactly once, in row order. |
| `PullImages.GenerateRequestBatches` | scripts/StreetviewDataMassaging/aws_scrapers/pull_images.py:16-40 | The nested loops build exactly the request batches of the split rows. |
| `PullImages.AdjacentWindowsCover` | scripts/StreetviewDataMassaging/aws_scrapers/pull_images.py:50-55 | Windows that each start where the previous one ended, beginning at row 0, together give the rows up to the last window's end, in order. |
| `PullImages.OkRows` | scripts/StreetviewDataMassaging/aws_scrapers/pull_images.py:45 | Keeps exactly the rows with status OK, in order, each as many times as it occurs in the input. |
| `PullImages.PullImages` | scripts/StreetviewDataMassaging/aws_scrapers/pull_images.py:42-71 | 101 execution inputs. Input sb is the request batches (10 of them) of the OK rows in window sb. |
| `PullImages.SuperBatchInputs` | scripts/StreetviewDataMassaging/aws_scrapers/pull_images.py:50-58 | The loop over the 101 super batches on a given table: input sb is the request batches of that table's window sb, for every sb. |
| `PullImages.SuperBatchesCoverage` | scripts/StreetviewDataMassaging/aws_scrapers/pull_images.py:50-55 | The 101 windows reach row min(101 * (len // 100), len), so every row is requested exactly when len % 100 <= len // 100. |
| `PullImages.SuperBatchesMissRows` | scripts/StreetviewDataMassaging/aws_scrapers/pull_images.py:50-55 | With 150 rows, only 101 are requested. |
| `PullImages.IntendedSuperBatchesCoverAll` | scripts/StreetviewDataMassaging/aws_scrapers/pull_images.py:50-55 | With the last window running to the end, every row is requested exactly once, in order. |
| `PullImages.RequestsSentAsWritten` | scripts/StreetviewDataMassaging/aws_scrapers/pull_images.py:42-71 | Across all executions, the requests sent are those of the OK rows up to row min(101 * (len // 100), len), in order. |
| `Segmentation.UniqueCounts` | scripts/StreetviewDataMassaging/segmentation/place_pulse_segment.py:107-111 | The map has a key for exactly the labels present in the prediction, each mapped to its pixel count. |
| `Segmentation.ZeroFill` | scripts/StreetviewDataMassaging/segmentation/place_pulse_segment.py:113-115 | Afterwards every class index below the number of names is a key too. Present labels keep their counts, and added ones hold 0. |
| `Segmentation.SortedValues` | scripts/StreetviewDataMassaging/segmentation/place_pulse_segment.py:117-118 | The row is the map's values in increasing key order. |
| `Segmentation.CountRow` | scripts/StreetviewDataMassaging/segmentation/place_pulse_segment.py:107-118 | The loop body builds the image's count row. |
| `Segmentation.HistogramSorted` | scripts/StreetviewDataMassaging/segmentation/place_pulse_segment.py:113-118 | The row's keys increase strictly. They are exactly the present labels plus every class index, and each entry counts the pixels with its key. |
| `Segmentation.HistogramIsDense` | scripts/StreetviewDataMassaging/segmentation/segment_script.py:100-113 | When every label is a class index, entry i of the row is the number of pixels labelled i, for every class i, with 0 for absent classes. |
| `Segmentation.DenseRowSum` | scripts/StreetviewDataMassaging/segmentation/place_pulse_segment.py:107-118 | The entries of a dense count row sum to the number of pixels of the prediction. |
| `Segmentation.ParquetFile.ToParquet` | scripts/StreetviewDataMassaging/segmentation/place_pulse_segment.py:121-123 | The file afterwards holds exactly the frames written. |
| `Segmentation.ParquetFile.ReadParquet` | scripts/StreetviewDataMassaging/segmentation/place_pulse_segment.py:130 | Succeeds exactly when the file exists, and gives its frames. |
| `Segmentation.Slice` | scripts/StreetviewDataMassaging/segmentation/segment_script.py:82 | A Python slice: the plain subsequence when the bounds are in range, otherwise clipped to the list (empty past its end). |
| `Segmentation.Window` | scripts/StreetviewDataMassaging/segmentation/place_pulse_segment.py:83-87 | Window sb holds the files from sb * size to min((sb + 1) * size, bound), clipped to the end of the list. It is empty once sb * size reaches the bound or the end of the list, and non-empty whenever sb * size is below a bound within the list. |
| `Segmentation.WindowsCover` | scripts/StreetviewDataMassaging/segmentation/place_pulse_segment.py:79-84 | With the list length as the bound, the first k windows concatenate to the first min(k * size, n) files, in order. |
| `PlacePulseSegment.RelevantIff` | scripts/StreetviewDataMassaging/segmentation/place_pulse_segment.py:16-24 | A zip entry is relevant exactly when its name does not start with `__`, does not contain `.tsv` and is not `images/`. |
| `PlacePulseSegment.MacMetadataIrrelevant` | scripts/StreetviewDataMassaging/segmentation/place_pulse_segment.py:20 | Every entry whose name starts with `__` is skipped. |
| `PlacePulseSegment.TsvIrrelevant` | scripts/StreetviewDataMassaging/segmentation/place_pulse_segment.py:21 | Every name that contains `.tsv` is skipped. |
| `PlacePulseSegment.ImageEntriesRelevant` | scripts/StreetviewDataMassaging/segmentation/place_pulse_segment.py:16-24 | A file under `images/` whose own name does not mention `.tsv` is kept. |
| `PlacePulseSegment.RelevantFilenames` | scripts/StreetviewDataMassaging/segmentation/place_pulse_segment.py:27-32 | The listed names are exactly the relevant names of the zip, each once, in any order. |
| `PlacePulseSegment.NumSuperbatches` | scripts/StreetviewDataMassaging/segmentation/place_pulse_segment.py:79 | `while sb * 50 < n` runs its body exactly ceil(n / 50) times. |
| `PlacePulseSegment.SuperbatchFrame` | scripts/StreetviewDataMassaging/segmentation/place_pulse_segment.py:81-118 | One superbatch's table: the files of its window as the index, the class names as columns, and one count row per file. The index is non-empty and every row has one entry per class name, the shape the frame constructor at line 122 accepts. |
| `PlacePulseSegment.SegmentPlacePulse` | scripts/StreetviewDataMassaging/segmentation/place_pulse_segment.py:77-136 | Afterwards the file holds the tables of all superbatches, in order, one per window of 50 files. With no relevant files it is untouched. |
| `PlacePulseSegment.StoredTableIsAllFiles` | scripts/StreetviewDataMassaging/segmentation/place_pulse_segment.py:120-136 | The stored row indexes concatenate to the relevant file list, every table has the class names as columns, and the stored rows are the files' count rows, in order. |
| `SegmentScript.Transpose` | scripts/StreetviewDataMassaging/segmentation/segment_script.py:116 | `np.array(df).T`: cell (i, j) of the result is cell (j, i) of the rows. |
| `SegmentScript.TransposeTwice` | scripts/StreetviewDataMassaging/segmentation/segment_script.py:116 | Transposing back gives the count rows again. |
| `Segmentation.RowsWidth` | scripts/StreetviewDataMassaging/segmentation/segment_script.py:100-113 | With labels that are class indices, every count row has one entry per class name. |
| `SegmentScript.ClassTable` | scripts/StreetviewDataMassaging/segmentation/segment_script.py:78-116 | One superbatch through the network gives the class-by-image table of its images. |
| `SegmentScript.SegmentStreetview` | scripts/StreetviewDataMassaging/segmentation/segment_script.py:73-124 | The outcome and the stored table are those of the ten superbatches as written. An empty window raises, superbatch 0's table is dropped, and later superbatches fail when no stored table exists. |
| `SegmentScript.RunFromOutcome` | scripts/StreetviewDataMassaging/segmentation/segment_script.py:75-124 | From superbatch 1 on, the run succeeds exactly when no remaining window is empty and a stored table exists. |
| `SegmentScript.RunFromStored` | scripts/StreetviewDataMassaging/segmentation/segment_script.py:115-124 | A successful run from superbatch 1 on appends the remaining superbatches' tables to the stored one, in order. |
| `SegmentScript.AsWrittenOutcome` | scripts/StreetviewDataMassaging/segmentation/segment_script.py:115-124 | A run succeeds exactly when a stored table already exists and all ten windows hold images. It appends the tables of superbatches 1 to 9 only. |
| `SegmentScript.FreshRunFails` | scripts/StreetviewDataMassaging/segmentation/segment_script.py:115-121 | From a fresh start with images in the first two windows, the run fails at superbatch 1 reading a table nobody wrote, and writes nothing. |
| `SegmentScript.IntendedCount` | scripts/StreetviewDataMassaging/segmentation/segment_script.py:73-75 | The corrected loop runs at most ten superbatches and stops once the images run out. |
| `SegmentScript.SegmentStreetviewIntended` | scripts/StreetviewDataMassaging/segmentation/segment_script.py:73-124 | The corrected loop bounds windows by the image count and writes superbatch 0. The stored tables are then all the superbatches', in order. |
| `SegmentScript.IntendedCoversImages` | scripts/StreetviewDataMassaging/segmentation/segment_script.py:73-124 | Under the correction, the stored columns are the first min(25000, n) images, in order. Every table is indexed by the class names and transposes back to its images' count rows. |
| `GetClean311.Grab311s` | scripts/chicago_data_portal_data/get_clean_311.py:14-24 | One page per offset of `range(1, 1800)`, appended in that order. |
| `GetClean311.FirstPageNeverRequested` | scripts/chicago_data_portal_data/get_clean_311.py:19-24 | Pages 1 to 1799 are each requested once, and page 0 (rows 0 to 999) never. |
| `GetClean311.IntendedPagesEachOnce` | scripts/chicago_data_portal_data/get_clean_311.py:19-24 | With `range(0, 1800)` every page from 0 to 1799 is requested exactly once. |
| `GetClean311.Grab311sIntended` | scripts/chicago_data_portal_data/get_clean_311.py:14-24 | The corrected fetch appends the pages of `range(0, 1800)`, in order. |
| `GetClean311.ClassOf` | scripts/chicago_data_portal_data/get_clean_311.py:36 | The classification table's entry for the code, or `MISSING` when there is none. |
| `GetClean311.AttachClasses` | scripts/chicago_data_portal_data/get_clean_311.py:36 | Every request keeps its place and gets its code's class. |
| `GetClean311.ClassifiedRequests` | scripts/chicago_data_portal_data/get_clean_311.py:36-37 | Attaching classes and dropping `MISSING` keeps exactly the requests whose code has a class, in order. |
| `GetClean311.CleanRowsPassFilters` | scripts/chicago_data_portal_data/get_clean_311.py:27-37 | No cleaned row is flagged as a duplicate or is a `311IOC` call. Each class is the table's entry for the row's code, and none is `MISSING`. |
| `GetClean311.CleanKeepsOrder` | scripts/chicago_data_portal_data/get_clean_311.py:27-37 | Request numbers are unique, and the cleaned requests are a subsequence of the concatenated pages: dropped, never reordered or changed. |
| `GetClean311.CleanKeepsFirstClassified` | scripts/chicago_data_portal_data/get_clean_311.py:27-37 | The first request with a given number survives, with its class, when it is not flagged, not `311IOC` and its code has a class. |
| `GetClean311.CleanKeepsOnlyFirst` | scripts/chicago_data_portal_data/get_clean_311.py:27-37 | Every surviving request is the first request of the concatenated pages carrying its number, and no earlier request carries it. So when that first request is flagged, info-only or unclassified, no later copy survives instead. |
| `GetCleanCrime.GrabCrimes` | scripts/chicago_data_portal_data/get_clean_crime.py:20-35 | One page per offset of `range(270)`, appended in that order. |
| `GetCleanCrime.PagesEachOnce` | scripts/chicago_data_portal_data/get_clean_crime.py:34-35 | Pages 0 to 269 are each requested exactly once, and no other page is. |
| `GetCleanCrime.Deduplicated` | scripts/chicago_data_portal_data/get_clean_crime.py:37 | No two remaining rows are identical, and every input row still has a copy. The rows keep the order of their first occurrences. |
| `GetCleanCrime.CategoriesDisjoint` | scripts/chicago_data_portal_data/get_clean_crime.py:12-18 | No primary type is both violent and narcotic. |
| `GetCleanCrime.SplitIsDisjoint` | scripts/chicago_data_portal_data/get_clean_crime.py:55-56 | A row is violent exactly when its type is in the violent list, and narcotic likewise. No row is in both outputs, each keeps the input order, and together they hold at most the input's rows. |
| `MakeGreeneryIndex.StripSuffix` | scripts/StreetviewDataMassaging/make_greenery_index.py:17 | `x[:-4]` is four characters shorter, or empty for shorter names. |
| `MakeGreeneryIndex.StripPng` | scripts/StreetviewDataMassaging/make_greenery_index.py:16-17 | Stripping a `.png` name and appending `.png` again gives it back, and stripping `id + ".png"` gives `id`. |
| `MakeGreeneryIndex.GreeneryCountsVegetationPixels` | scripts/StreetviewDataMassaging/make_greenery_index.py:9-20 | The absolute greenery of an image is the number of its pixels labelled tree, grass, field, flower or hill. |
| `MakeGreeneryIndex.Kept` | scripts/StreetviewDataMassaging/make_greenery_index.py:17-26 | Each kept row is the image ID with its extension stripped, plus the row's absolute greenery. |
| `MakeGreeneryIndex.InnerMerge` | scripts/StreetviewDataMassaging/make_greenery_index.py:31-33 | Every merged row pairs a metadata row with a greenery row of the same ID, and every such pair is merged. |
| `MakeGreeneryIndex.IndexJoinsOnId` | scripts/StreetviewDataMassaging/make_greenery_index.py:12-33 | Every index row is a metadata row plus the greenery of an image whose stripped name is its ID. Every image `ID.png` with a metadata row is in the index. |
| `ExtractMetadata.RenameColumn` | scripts/StreetviewDataMassaging/ml_pipeline/extract_metadata.py:22-24 | The renamed name has no `.`, the same length, `_` where a `.` was, and every other character unchanged. |
| `ExtractMetadata.RenameIdempotent` | scripts/StreetviewDataMassaging/ml_pipeline/extract_metadata.py:23 | Renaming twice is renaming once. |
| `ExtractMetadata.RenameKeepsDotless` | scripts/StreetviewDataMassaging/ml_pipeline/extract_metadata.py:23 | A name without a dot is left as it is. |
| `ExtractMetadata.RenamedHeaderIsClean` | scripts/StreetviewDataMassaging/ml_pipeline/extract_metadata.py:22-26 | No renamed header holds a dot, and renaming it again changes nothing. |
| `ExtractMetadata.CleanFiles` | scripts/StreetviewDataMassaging/ml_pipeline/extract_metadata.py:20-26 | Exactly the five files are rewritten, in order, each with its renamed column names. |
| `ExtractMetadata.FilesAreTheScoreTables` | scripts/StreetviewDataMassaging/ml_pipeline/extract_metadata.py:11 | Five distinct tab-separated files, none of which the Place Pulse segmentation would take for an image. |

## Left out

- I/O is left out: HTTP requests, boto3 (S3 client, Step Functions, IAM), zip, CSV, JSON and parquet reading and writing, and logging. Responses are oracle parameters, and the parquet file is a class holding frames.
- The oracles are indexed by a structured request rather than by the URL string. The URL shape is proved separately: `RequestUrlShape`, `ParametersInFixedOrder`, `SameUrlAsLambda`.
- The thread pools of get_clean_311.py and get_clean_crime.py are left out. Pages are appended in submission order. The 311 and crime cleaning lemmas hold for any page order given to them, but which duplicate the 311 dedupe keeps depends on that order.
- The spatial joins are left out: tracts and `sjoin` in get_clean_311.py:43-56 and get_clean_crime.py:40-51, and the one in get_census_data.py. The crime split is stated for any joined table.
- Floating point is left out: the relative greenery and relative tree columns (make_greenery_index.py:21-23) and the census percentages. Street View coordinates are carried as their decimal text.
- The segmentation network, tensors and image normalisation are left out. Each image's prediction is a label sequence given by a function.
- The class-name table read from the object150_info CSV (place_pulse_segment.py:34-41, segment_script.py:24-31) is an input list of names.
- `list(set)` at place_pulse_segment.py:32 has unspecified order. `RelevantFilenames` admits any order of the distinct relevant names.
- place_pulse_segment.py:87 slices `len(relevant_filenames)`, which raises `TypeError` on the first superbatch. The model takes the evident `relevant_filenames[low:upper]`.
- `PlacePulseSegment.SegmentPlacePulse`: requires every predicted label to be a class index below the number of names (the decoder is built with `num_class=150`, place_pulse_segment.py:53). A label outside the class list would make a row wider than the names, and the frame constructor at place_pulse_segment.py:122 and 131 would raise; that case is not modelled. `PlacePulseSegment.SuperbatchFrame` carries the same requirement.
- `SegmentScript.SegmentStreetview`: requires every predicted label to be a class index below the number of names (the decoder is built with `num_class=150`). Rows are then equally wide and `np.array(df).T` is a plain transpose. The ragged case is not modelled.
- The greenery script reads a segment table with one row per image and named class columns. That is the Place Pulse layout, while segment_script.py writes one row per class. The model takes per-image rows with the five vegetation counts.
- `CensusFriendo.CensusFriendo.GetAcs`: the outer merge of the converted tables on GEOID (CensusFriendo.py:93) is not computed. The result is the list of converted tables, in merge order.
- `LambdaFunction.LambdaHandler`: the image fetch, the upload and `wait_until_exists` (lambda_function.py:81-97) are modelled as never raising. In the code, a raise there also reaches the `except` whose `req.ID` ends the handler. The model's handler stops only at a raising metadata call, so `completed` is stated for that cause alone.
- `CensusFriendo.ApiReturnToFrame`: takes a rectangular response whose header has no GEOID column. A successful reply parses to such a list; a reply that does not parse (the API's plain-text error message, on which `ast.literal_eval` at CensusFriendo.py:59 raises) is not modelled. The constructor of the data frame raises on a row longer than the header and pads a shorter one with missing values. Neither case is modelled. `CensusFriendo.CensusFriendo.GetAcs` inherits this requirement for every response.
- A generated response with random headings (`np.random.randint`, validate_points.py:42) is an input sequence of headings in [0, 360).
- models.py, save_images_to_local.py, initialize_aws.py, teardown_aws.py, teardown_bucket.py and download_place_pulse.py are pure I/O or library setup and are not part of this model. So are Points.py, StreetviewFren.py, pick_points.py and get_census_data.py.
- `ExtractMetadata.CleanFiles`: `to_csv` also writes the frame's index as an unnamed first column (extract_metadata.py:26). The model keeps only the renamed data columns.
- The extraction loop of extract_metadata.py (lines 13-17) only copies files out of the archive. The model starts from each file's header.

## Findings

| source | as written | input that shows it | evidently intended | confidence | as-written member | corrected member |
|---|---|---|---|---|---|---|
| scripts/StreetviewDataMassaging/aws_scrapers/deployment_packages/lambda_function.py:99-101 | the exception handler logs `req.ID`, an attribute lookup on a dict, so it raises and the handler stops at the first request whose metadata call raises (a raising fetch or upload would stop it too; the model covers the metadata call) | an event whose first request's metadata call raises and whose second request passes | log the failure and continue with the next request | not executed | `LambdaFunction.HandlerStopsAtRaisingCheck` | `LambdaFunction.IntendedUploadsAllPassing` |
| scripts/StreetviewDataMassaging/aws_scrapers/pull_images.py:50-55 | 101 windows of `len // 100` rows reach only row `101 * (len // 100)` | 150 rows with imagery: only 101 are requested | every row with imagery is requested | not executed | `PullImages.SuperBatchesMissRows` | `PullImages.IntendedSuperBatchesCoverAll` |
| scripts/StreetviewDataMassaging/segmentation/segment_script.py:115-117 | superbatch 0 builds its table and continues without writing it, so a fresh run fails reading the file at superbatch 1 and superbatch 0's images never reach the table | a fresh start with more than 2500 images in the image directory and more than 2500 entries in the working directory, whose count bounds each window (segment_script.py:81) | superbatch 0 writes the table that later superbatches extend | not executed | `SegmentScript.FreshRunFails` | `SegmentScript.IntendedCoversImages` |
| scripts/chicago_data_portal_data/get_clean_311.py:24 | pages are requested for `range(1, 1800)`, skipping page 0 | the first 1000 rows of the query (offset 0) | `range(0, 1800)`, as the crime script's `range(270)` starts at 0 | not executed | `GetClean311.FirstPageNeverRequested` | `GetClean311.IntendedPagesEachOnce` |
