# Detections and the findable-object oracle of the MOPS day pipeline

This project models two pieces of the Moving Object Processing System's day
pipeline (`mops_daymops`) in Dafny and proves properties of the models.

- **`MopsDetection`** is one observed point on the sky. It holds ids, epoch
  (MJD), RA/Dec, their errors, magnitude, SNR and a topocentric correction.
  It has:
  - a default constructor and a full constructor;
  - a setter and a getter per field;
  - an observatory location shared by all detections;
  - `fromString`, which reads a DiaSource text line
    (`diaId obsHistId ssmId RA Dec MJD mag SNR`) with a C++ `istringstream`.
- **`findLinkableObjects`** is the oracle that says which objects (by the
  `ssmId` of their detections) a tracklet linker could find.
  - It groups tracklets by object.
  - An object qualifies when the start times of its tracklets span more than
    `minEndpointTimeSeparation`.
  - The tracklets it may use are those starting at either end of that span,
    plus support tracklets that start more than
    `minSupportToEndpointTimeSeparation` inside both ends.
  - Those tracklets must hold more than `minDetectionsPerTrack` distinct
    observation times.
  - Qualifying ids are appended to the output in ascending order.

Files:

- `stream_extraction.dfy` (module `StreamExtraction`): what `stream >> x`
  does for `long`, `int` and `double` under GNU libstdc++ in the "C" locale.
  - It skips whitespace.
  - If only whitespace is left, the variable is untouched.
  - Text that is not a number stores 0.
  - An integer out of range saturates to the type's bound.
  - In each of the last three cases the stream fails.
  - It also defines the text forms numbers are written in, and proves that
    reading a written number gives it back.
- `mops_detection.dfy` (module `Detections`):
  - the `MopsDetection` class with its twelve fields;
  - its state as a value (`DetState`);
  - `fromString`, specified by `ReadFields` over the field layout of a
    DiaSource line;
  - the `Observatory` object that stands for the two static members.
- `find_linkable_objects.dfy` (module `LinkableObjects`):
  - `minMJD`, `maxMJD`, `trackletIsCorrect`, `firstDetectionTime` and
    `findLinkableObjects`, as methods with loops;
  - each method is proved against ghost definitions (`FirstTime`,
    `TrackletsOf`, `StartTimes`, `Included`, `DetTimes`, `Findable`,
    `FindableObjects`);
  - lemmas about those definitions.

Three details of the oracle's thresholds and counting:

- The oracle requires **strictly more** than `minDetectionsPerTrack`
  distinct observation times (`findLinkableObjects.cc:214`).
- A support tracklet must start **strictly** more than
  `minSupportToEndpointTimeSeparation` after the first start and strictly
  more than it before the last (`findLinkableObjects.cc:193-195`).
- What is counted is **all** detections of a usable tracklet, whichever
  object they belong to. The check that a tracklet holds only one object's
  detections is disabled (`findLinkableObjects.cc:62-88`).

## Model

| member | source | states |
|---|---|---|
| StreamExtraction.ExtractInteger | src/MopsDetection.cc:193-195 | A successful integer extraction yields a value within the target type's range and moves past at least one character. A failed one stores 0, the lower bound or the upper bound; which one is fixed by `IntegerSaturates`. |
| StreamExtraction.ExtractReal | src/MopsDetection.cc:196-200 | A successful `double` extraction moves past at least one character. A failed one on a malformed field stores 0. |
| StreamExtraction.IntegerRoundTrip | src/MopsDetection.cc:193-195 | An integer that fits the type, written in decimal after any whitespace and followed by whitespace or the end, reads back as itself. |
| StreamExtraction.IntegerSaturates | src/MopsDetection.cc:193-195 | An integer written in decimal that does not fit the type fails. The value stored is the upper bound when the integer is above it and the lower bound when below. |
| StreamExtraction.WholeRoundTrip | src/MopsDetection.cc:196-200 | A whole number written without a point, read into a `double`, gives back exactly that number. |
| StreamExtraction.DecimalRoundTrip | src/MopsDetection.cc:196-200 | A decimal `[-]W.F`, written after any whitespace and followed by whitespace or the end, reads back as exactly its value. |
| StreamExtraction.ExhaustedAt | src/MopsDetection.cc:191-205 | Extracting where only whitespace is left reads nothing, for integers and doubles alike. |
| StreamExtraction.MalformedAt | src/MopsDetection.cc:191-205 | A field starting with a character no number starts with fails and stores zero. |
| Detections.Set | src/MopsDetection.cc:193-200 | Overwriting one field of a detection: that field then reads the new value and every other field keeps its value. |
| Detections.ReadStep | src/MopsDetection.cc:193-200 | One `ss >> field` changes at most that field. When the stream stays good it has consumed at least one character. |
| Detections.ReadFields | src/MopsDetection.cc:191-205 | Reading a list of fields never changes the index, the error bars, the topocentric correction, or any field not in the list. |
| Detections.StoreAllStores | src/MopsDetection.cc:193-200 | Storing a token into each of a list of distinct fields leaves every one of those fields holding its own token's value. |
| Detections.FromStringRoundTrip | src/MopsDetection.cc:193-200 | A line of eight numbers that fit their fields, in the order id, image id, ssmId, RA, Dec, MJD, mag, SNR, is read completely. The numbers may be separated by any non-empty run of whitespace, and the line may start with whitespace. Integer fields take integers, and `double` fields take decimals with a point or whole numbers. Each of the eight fields then holds its number. Trailing text after whitespace is ignored, and index and error bars are kept. |
| Detections.MissingFields | src/MopsDetection.cc:191-205 | A line with fewer than eight numbers, separated by any whitespace and followed only by whitespace, fails (the C++ throws). The numbers present have been stored and the later fields are untouched. |
| Detections.BadField | src/MopsDetection.cc:191-205 | A line whose next field, after whitespace-separated numbers, starts with a character no number starts with (not whitespace, a digit, `+`, `-` or `.`) fails. The earlier numbers are stored and that field is set to zero. |
| Detections.ReadExhausted | src/MopsDetection.cc:191-205 | Reading any field list where only whitespace is left fails and changes nothing. |
| Detections.ReadMalformed | src/MopsDetection.cc:191-205 | Reading a field list whose first field starts with a character no number starts with (not whitespace, a digit, `+`, `-` or `.`) fails and zeroes that field only. |
| Detections.Observatory.constructor | src/MopsDetection.cc:21-22 | The shared observatory location starts at latitude 0 and longitude 0, as static storage does. |
| Detections.MopsDetection.Default | src/MopsDetection.cc:24-29 | The default detection has RA = Dec = -380 and epoch 0. |
| Detections.MopsDetection.constructor | src/MopsDetection.cc:33-49 | Every argument is stored in its field. The image id comes from `obsHistId` and the index equals the id. |
| Detections.MopsDetection.SetId | src/MopsDetection.cc:53-56 | Only the id changes, to the new value; the index is kept. |
| Detections.MopsDetection.SetIndex | src/MopsDetection.cc:58-61 | Only the index changes; the id is kept. |
| Detections.MopsDetection.SetImageId | src/MopsDetection.cc:63-66 | Only the image id changes, and its getter returns the new value. |
| Detections.MopsDetection.SetMag | src/MopsDetection.cc:68-71 | Only the magnitude changes, and its getter returns the new value. |
| Detections.MopsDetection.SetSnr | src/MopsDetection.cc:73-76 | Only the SNR changes, and its getter returns the new value. |
| Detections.MopsDetection.SetSsmId | src/MopsDetection.cc:78-81 | Only the object id changes, and its getter returns the new value. |
| Detections.MopsDetection.SetEpochMjd | src/MopsDetection.cc:84-87 | Only the epoch changes, and its getter returns the new value. |
| Detections.MopsDetection.SetRa | src/MopsDetection.cc:89-92 | Only RA changes, and its getter returns the new value. |
| Detections.MopsDetection.SetDec | src/MopsDetection.cc:95-98 | Only Dec changes, and its getter returns the new value. |
| Detections.MopsDetection.SetRaErr | src/MopsDetection.cc:100-103 | Only the RA error changes, and its getter returns the new value. |
| Detections.MopsDetection.SetDecErr | src/MopsDetection.cc:105-108 | Only the Dec error changes, and its getter returns the new value. |
| Detections.MopsDetection.GetId | src/MopsDetection.cc:116-120 | Returns the id, which `fromString` fills from the `Id` field of a line in the detection's state, and changes nothing. |
| Detections.MopsDetection.GetIndex | src/MopsDetection.cc:122-126 | Returns the index in the detection's state, and changes nothing. |
| Detections.MopsDetection.GetImageId | src/MopsDetection.cc:128-131 | Returns the image id, which `fromString` fills from the `ImageId` field in the detection's state, and changes nothing. |
| Detections.MopsDetection.GetMag | src/MopsDetection.cc:133-136 | Returns the magnitude, which `fromString` fills from the `Mag` field in the detection's state, and changes nothing. |
| Detections.MopsDetection.GetSnr | src/MopsDetection.cc:138-141 | Returns the SNR, which `fromString` fills from the `Snr` field in the detection's state, and changes nothing. |
| Detections.MopsDetection.GetSsmId | src/MopsDetection.cc:143-147 | Returns the object id, which `fromString` fills from the `SsmId` field in the detection's state, and changes nothing. |
| Detections.MopsDetection.GetEpochMjd | src/MopsDetection.cc:149-152 | Returns the epoch, which `fromString` fills from the `Mjd` field in the detection's state, and changes nothing. |
| Detections.MopsDetection.GetRa | src/MopsDetection.cc:155-158 | Returns RA, which `fromString` fills from the `Ra` field in the detection's state, and changes nothing. |
| Detections.MopsDetection.GetDec | src/MopsDetection.cc:161-164 | Returns Dec, which `fromString` fills from the `Dec` field in the detection's state, and changes nothing. |
| Detections.MopsDetection.GetRaErr | src/MopsDetection.cc:166-169 | Returns the RA error in the detection's state, and changes nothing. |
| Detections.MopsDetection.GetDecErr | src/MopsDetection.cc:171-174 | Returns the Dec error in the detection's state, and changes nothing. |
| Detections.MopsDetection.GetRaTopoCorr | src/MopsDetection.cc:176-179 | Returns the topocentric RA correction in the detection's state, and changes nothing. |
| Detections.MopsDetection.SetObservatoryLocation | src/MopsDetection.cc:110-114 | The shared location takes the new latitude and longitude, and nothing else is modified. |
| Detections.MopsDetection.Store | src/MopsDetection.cc:193-200 | Storing into a field changes the detection's state exactly as `Set` does. |
| Detections.MopsDetection.Extract | src/MopsDetection.cc:193-200 | One `ss >> field` on the object has the outcome `ReadStep` specifies: new state, stream state and read position. |
| Detections.MopsDetection.ExtractField | src/MopsDetection.cc:193-200 | Extracting the k-th field of the layout leaves the outcome of the whole line equal to the outcome of reading the rest. On failure that outcome is the current state, failed. |
| Detections.MopsDetection.FromString | src/MopsDetection.cc:184-205 | The new state, and whether the C++ completes without throwing, are those of reading the eight layout fields in order, stopping at the first failure. |
| LinkableObjects.MinMJD | src/linkTracklets/findLinkableObjects.cc:32-44 | For a non-empty set of times, the result is a member that no member is below. |
| LinkableObjects.MaxMJD | src/linkTracklets/findLinkableObjects.cc:47-59 | For a non-empty set of times, the result is a member that no member exceeds. |
| LinkableObjects.TrackletIsCorrect | src/linkTracklets/findLinkableObjects.cc:62-88 | Every tracklet is accepted, whatever objects its detections belong to. |
| LinkableObjects.FirstDetectionTime | src/linkTracklets/findLinkableObjects.cc:92-106 | An empty tracklet gives 0. Otherwise the result is the epoch of one of its detections and no detection of it is earlier. |
| LinkableObjects.Report | src/linkTracklets/findLinkableObjects.cc:145-148 | Visiting ids in ascending order yields exactly the findable ones among them, strictly ascending. |
| LinkableObjects.FindableObjects | src/linkTracklets/findLinkableObjects.cc:145-217 | The oracle's verdict holds an id exactly when some tracklet holds a detection of it and it is findable. The ids come strictly ascending, so each appears at most once. |
| LinkableObjects.InsertEpochs | src/linkTracklets/findLinkableObjects.cc:186-191 | Adds exactly the epochs of the tracklet's detections to the set. |
| LinkableObjects.AddTracklet | src/linkTracklets/findLinkableObjects.cc:132-139 | After recording tracklet n, every object seen in tracklets 0..n maps to exactly the tracklets among them that hold one of its detections. |
| LinkableObjects.CollectObjects | src/linkTracklets/findLinkableObjects.cc:121-141 | The map's keys are exactly the objects with a detection in some tracklet. Each maps to exactly the tracklets holding one of its detections, so a tracklet mixing objects appears under each. |
| LinkableObjects.TrackletStartTimes | src/linkTracklets/findLinkableObjects.cc:152-159 | The set of first-detection times of an object's tracklets. |
| LinkableObjects.IdealTrackDetTimes | src/linkTracklets/findLinkableObjects.cc:168-208 | The distinct epochs of all detections in the usable tracklets: those starting at the first or last start time, or strictly more than the support separation inside both. |
| LinkableObjects.EvaluateObject | src/linkTracklets/findLinkableObjects.cc:150-218 | Decides `Findable` for an object's tracklets. |
| LinkableObjects.FindLinkableObjects | src/linkTracklets/findLinkableObjects.cc:110-221 | The output is the caller's vector followed by the findable objects in ascending id order. Nothing already there is changed. |
| LinkableObjects.SpanIsNonNegative | src/linkTracklets/findLinkableObjects.cc:165 | The latest start time is never below the earliest, so the absolute value in the endpoint test has no effect. |
| LinkableObjects.FindableObjectsIff | src/linkTracklets/findLinkableObjects.cc:161-217 | An object with detections is reported if and only if (1) and (2) hold: (1) its latest tracklet start minus its earliest is strictly above `minEndpointTimeSeparation`; (2) the usable tracklets' distinct epochs strictly outnumber `minDetectionsPerTrack`. |
| LinkableObjects.ReportedObjectsHaveDetections | src/linkTracklets/findLinkableObjects.cc:134-137 | Every reported id is the `ssmId` of some detection in some tracklet. |
| LinkableObjects.EndpointsIncluded | src/linkTracklets/findLinkableObjects.cc:180-191 | A tracklet starting at the first or the last start time is always used, whatever the support separation, and all its epochs count. |
| LinkableObjects.MixedTrackletCountsForEach | src/linkTracklets/findLinkableObjects.cc:130-139 | A tracklet holding detections of two objects belongs to both. Once usable for one object, the epochs of the other object's detections count for it too. |
| LinkableObjects.SingleStartNeverFindable | src/linkTracklets/findLinkableObjects.cc:161-165 | With a non-negative endpoint separation, an object whose tracklets all start at the same time is never reported. |
| LinkableObjects.StricterFindsFewer | src/linkTracklets/findLinkableObjects.cc:165-214 | Raising any of the three thresholds never adds an object to the output. |

## Left out

- `calculateTopoCorr` and the PAL helpers (`missing_palCc2s`,
  `missing_palCs2c` and the PAL calls): floating-point astronomy outside
  the modelled core. `raTopoCorr` is only carried as a field.
- Floating point: epochs, angles and magnitudes are exact reals.
  - Double rounding is not modelled.
  - NaN is not modelled, so the comparisons in `minMJD`/`maxMJD` and the
    `==` tests at `findLinkableObjects.cc:180` assume no NaN.
  - A `double` extraction whose value overflows to ±HUGE_VAL is not modelled.
- StreamExtraction.IntegerRoundTrip, StreamExtraction.WholeRoundTrip,
  StreamExtraction.DecimalRoundTrip and Detections.FromStringRoundTrip:
  cover numbers written as `[-]digits` (integer fields, and whole numbers in
  `double` fields) and `[-]digits.digits` (`double` fields). Other spellings
  (a `+` sign, exponents, no digit before the point, leading zeros) are
  covered by `ExtractInteger`/`ExtractReal` themselves, but not by a
  round-trip lemma.
- Detections.BadField, Detections.ReadMalformed: cover a bad field whose
  first character cannot start a number. Other malformed fields (`-x`, a
  lone `+` or `.`, `1e` in a `double` field) also fail and store zero
  through `ExtractInteger`/`ExtractReal`, but no lemma about whole lines
  states it.
- Detections.MopsDetection.FromString: the eight `ss >> field` statements
  are modelled as one extraction per entry of `DiaSourceLayout`, in order,
  in a loop. `BadParameterException` is modelled as the result
  `ok == false`, and the fields written before the failure keep their new
  values, as in the C++.
- Detections.MopsDetection.Default: does not state the fields the C++
  leaves uninitialised (id, index, image id, ssmId, errors, mag, SNR,
  topocentric correction). Reading them in C++ is undefined.
- Detections.MopsDetection.constructor: likewise, `RaTopoCorr` is left
  uninitialised by the C++ and is not stated.
- The static members `obsLat`/`obsLong` are modelled as one shared
  `Observatory` object that `SetObservatoryLocation` modifies. No other
  modelled member reads them.
- Detections.MopsDetection.constructor: the C++ full constructor is also
  called with only six arguments (id, epoch, RA, Dec, RA error, Dec error), so
  `ssmId`, `obsHistId`, `snr` and `mag` have default values. Those defaults
  are declared in the class header, which is not part of this model, so
  callers of the model must pass all ten values.
- LinkableObjects.MinMJD and LinkableObjects.MaxMJD: on an empty set the
  C++ returns an uninitialised value. The model requires a non-empty set,
  which every call in `findLinkableObjects` satisfies.
- `std::set` iterates in ascending order. The loops over sets
  (`MinMJD`, `MaxMJD`, `FirstDetectionTime`, the tracklet loops) take
  elements in any order, and their results are proved for every order.
  The loop over the object map does take ids in ascending order, since that
  order reaches the output.
- `nameToObsTimesMap` and `idealTrackTrackletIndices` are filled by
  `findLinkableObjects` but never read for its result, so they are not
  modelled.
- `minDetectionsPerTrack` is modelled as a natural number. Its declaration
  (`linkTrackletsConfig`) is not part of this model, and the comparison
  with a `size()` is unsigned.
- Tracklet indices that are out of range, where `allDets.at` would throw
  `std::out_of_range`, are excluded by the precondition `IndicesInRange`.
- The file readers and command-line drivers (`findLinkableObjectsMain.cc`)
  and the Python bindings (`daymopsLib.cc`) are I/O and glue and are not
  modelled.
