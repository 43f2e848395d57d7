# ExifChanger metadata core, in Dafny

ExifChanger is a macOS tool that edits the capture dates, GPS position and
IPTC keywords of many photos at once. The user adds photos to a library,
selects some of them, and stages edits onto the selected photos. The staged
edits are then saved back into the image files one photo after another.
This project models the logic under the user interface and proves what it
promises:

- **`ExifMetadata`** (`exif_metadata.dfy`, module `Metadata`). The metadata
  record, with a custom `==` that compares only six fields. `coordinate` is
  a view over latitude and longitude. The display strings for dimensions and
  ISO are here too.
- **`PhotoItem` and `ImageFormat`** (`photo_item.dfy`, module `Photos`). A
  photo keeps an original and a pending snapshot. Its `hasChanges` flag is
  recomputed whenever either snapshot is assigned, and the class invariant
  `Valid` says the flag is never stale. `ImageFormat` is the table of
  supported extensions, with the `jpg` alias and the formats that carry
  EXIF.
- **`ExifService`** (`exif_service.dfy`, with the property dictionary in
  `image_properties.dfy`). Reading a record out of an image's property
  dictionary, and merging a record back into it before the write. It also
  covers the error cases of both directions, and the round trips between
  them.
- **`PhotoLibraryViewModel`** (`photo_library.dfy`, module `Library`). The
  photo list and the selection. It adds files, skipping unsupported
  extensions and URLs already listed, and removes, selects and deselects
  photos. It stages date, location and keyword edits onto every selected
  photo, and resets them. Its save loop stops at a refused write, records
  any other failure and goes on, and makes every saved snapshot the
  photo's original.
- **`VisionService`** (`vision_service.dfy`, module `Vision`). Keyword
  suggestions from image classification. For each image it keeps the
  observations at or above 0.40 confidence, at most 10, with formatted
  keywords. Across images it keeps the highest confidence for each keyword,
  skips images that fail, and sorts best first.
- **`KeywordSelectorView`** (`keyword_selector.dfy`, module
  `KeywordSelector`). The keyword staging set: chip toggles, the trimmed
  custom keyword, Clear, Load from Photo and chip removal.

`wrappers.dfy` (`Option`, `Result`, `Outcome`), `text.dfy` (ASCII lower
case, whitespace trimming, decimal rendering, character replacement) and
`collections.dfy` (filter, subsequence, set toggle) hold the shared
helpers.

Everything outside the program is a parameter of the model:

- What ImageIO yields for a file, and how the write of the encoded data ends.
- What the write and the file-date update of each saved photo return.
- The date formatter and parser.
- `String.capitalized`.
- What the classifier yields for each image.

With these inputs fixed, every operation is deterministic.

## Model

| member | source | states |
|---|---|---|
| Metadata.ChangeEq | ExifChanger/Models/ExifMetadata.swift:81-88 | two records are equal exactly when both capture dates, latitude, longitude, altitude and the keyword list agree |
| Metadata.ChangeEqIsEquivalence | ExifChanger/Models/ExifMetadata.swift:81-88 | the custom `==` is reflexive, symmetric and transitive |
| Metadata.UntrackedFieldsIgnored | ExifChanger/Models/ExifMetadata.swift:81-88 | records differing only in the file date, camera, exposure, dimension or raw-dictionary fields compare equal |
| Metadata.KeywordOrderMatters | ExifChanger/Models/ExifMetadata.swift:87 | keywords compare as ordered lists: the same keywords in another order are a change |
| Metadata.DefaultIsEmpty | ExifChanger/Models/ExifMetadata.swift:4-38 | `ExifMetadata()` has no keywords and every optional field absent |
| Metadata.GetCoordinate | ExifChanger/Models/ExifMetadata.swift:40-44 | the coordinate exists exactly when latitude and longitude both do, and carries them |
| Metadata.SetCoordinate | ExifChanger/Models/ExifMetadata.swift:45-48 | reading the coordinate back gives what was set; nil clears both; no other field (altitude included) changes |
| Metadata.SetOwnCoordinate | ExifChanger/Models/ExifMetadata.swift:40-48 | assigning a record its own coordinate changes nothing when latitude and longitude are both present or both absent |
| Metadata.DimensionsString | ExifChanger/Models/ExifMetadata.swift:76-79 | present exactly when width and height are known; starts with the width's digits and ends with the height's |
| Metadata.DimensionsStringInjective | ExifChanger/Models/ExifMetadata.swift:76-79 | different sizes are displayed differently: the string determines both width and height |
| Metadata.FormattedISO | ExifChanger/Models/ExifMetadata.swift:71-74 | present exactly when the ISO speed is known, and starts with "ISO " |
| Metadata.FormattedISOInjective | ExifChanger/Models/ExifMetadata.swift:71-74 | different ISO speeds are displayed differently |
| Text.IntToStringInjective | ExifChanger/Models/ExifMetadata.swift:73 | the decimal rendering of integers is injective |
| Photos.Dirty | ExifChanger/Models/PhotoItem.swift:48-61 | a photo has changes exactly when it has a pending snapshot and either no original or an original that differs in a tracked field |
| Photos.SameSnapshotsAreClean | ExifChanger/Models/PhotoItem.swift:48-61 | equal snapshots never count as a change |
| Photos.PhotoItem.constructor | ExifChanger/Models/PhotoItem.swift:71-74 | a new photo is loading, has no snapshots and no error, and is clean |
| Photos.PhotoItem.UpdateHasChanges | ExifChanger/Models/PhotoItem.swift:48-61 | afterwards the flag equals the dirty rule on the current snapshots |
| Photos.PhotoItem.SetOriginal | ExifChanger/Models/PhotoItem.swift:16-28 | the original takes the new value, the pending snapshot is kept, and the flag is current again |
| Photos.PhotoItem.SetPending | ExifChanger/Models/PhotoItem.swift:30-42 | the pending snapshot takes the new value, the original is kept, and the flag is current again |
| Photos.PhotoItem.ResetChanges | ExifChanger/Models/PhotoItem.swift:84-86 | pending becomes the original and the photo is clean |
| Photos.PathExtension | ExifChanger/Models/PhotoItem.swift:46 | the extension is the dot-free suffix after the last '.', which is never the first character; it is empty when there is no such dot, and non-empty whenever a dot after the first character is followed by more of the name |
| Text.Lower | ExifChanger/Models/PhotoItem.swift:46 | lower-casing keeps the length and maps every character by the ASCII rule |
| Text.LowerIdempotent | ExifChanger/Models/PhotoItem.swift:120 | lower-casing twice is lower-casing once |
| Photos.PhotoItem.FileExtension | ExifChanger/Models/PhotoItem.swift:46 | the file extension holds no upper-case letter |
| Photos.PhotoItem.SupportsExif | ExifChanger/Models/PhotoItem.swift:63-69 | true exactly when the extension names a format and that format is not PNG |
| Photos.ImageFormat.SupportsExif | ExifChanger/Models/PhotoItem.swift:97-104 | every format except PNG carries EXIF |
| Photos.ImageFormat.From | ExifChanger/Models/PhotoItem.swift:119-124 | a format is found exactly when the lower-cased extension is supported; "jpg" gives JPEG; otherwise the found format's raw value is the extension |
| Photos.ImageFormat.FirstWithRawValue | ExifChanger/Models/PhotoItem.swift:123 | found exactly when some case has the raw value, and then it is one of the cases with that raw value |
| Photos.FirstWithRawValueAt | ExifChanger/Models/PhotoItem.swift:123 | the search returns the case at the first position whose raw value matches |
| Photos.ImageFormat.SupportedExtensions | ExifChanger/Models/PhotoItem.swift:126-130 | the raw values of all cases in declaration order, then "jpg" |
| Photos.FromRawValue | ExifChanger/Models/PhotoItem.swift:119-124 | every format is found again from its own raw value |
| Photos.FromIgnoresCase | ExifChanger/Models/PhotoItem.swift:119-120 | the lookup does not depend on letter case |
| Photos.SupportedExtensionsAreRecognised | ExifChanger/Models/PhotoItem.swift:119-130 | every listed extension is recognised |
| ExifService.GPSDictionaryFor | ExifChanger/Services/ExifService.swift:110-123 | the GPS dictionary holds magnitudes with N/S and E/W references, version "2.3.0.0", and the altitude's magnitude with reference 0 or 1 when there is one, and nothing else |
| ExifService.MergeExif | ExifChanger/Services/ExifService.swift:89-98 | the two Exif date entries are overwritten when the record has those dates; every other entry is kept |
| ExifService.MergeTiff | ExifChanger/Services/ExifService.swift:101-107 | the TIFF date takes `dateTime`, else the capture date, else stays; every other entry is kept |
| ExifService.MergeIptc | ExifChanger/Services/ExifService.swift:128-137 | keywords are set when there are any and removed when there are none; every other entry is kept |
| ExifService.WriteProperties | ExifChanger/Services/ExifService.swift:86-137 | every top-level entry except the four metadata dictionaries is kept; Exif, TIFF and IPTC are always present and merged; GPS is rebuilt from the coordinate or removed when there is none |
| ExifService.WriteMetadata | ExifChanger/Services/ExifService.swift:73-182 | each error case exactly in its order (unknown type, unopenable file, no properties); then an unavailable encoder is `cannotCreateDestination`, a failed finalize `writeFailed`, and a failing final file write a missing write permission; success exactly when everything succeeds, with the merged properties |
| ExifService.ParseGPSCoordinate | ExifChanger/Services/ExifService.swift:199-211 | a coordinate exactly when all four entries are present; latitude is negated when its reference is "S", longitude when its reference is "W", and otherwise kept |
| ExifService.WithExif | ExifChanger/Services/ExifService.swift:28-38 | the capture dates come from the Exif dictionary through the parser; f-number, exposure time and focal length are its numbers, the ISO speed the first of its integer list, flash whether its flash integer is non-zero, lens make and model its texts; no other field changes |
| ExifService.WithTiff | ExifChanger/Services/ExifService.swift:41-49 | the file date comes from the TIFF dictionary through the parser; camera make and model, software, artist and copyright are its texts and the orientation its integer; no other field changes |
| ExifService.ExtractMetadata | ExifChanger/Services/ExifService.swift:24-68 | every field is read from its own dictionary and key, and is nil when the dictionary or the entry is missing or of another type: dates, exposure and lens from Exif, file date, camera, authorship and orientation from TIFF, coordinate and altitude from GPS (with no parsable coordinate both latitude and longitude are nil), keywords from IPTC or none, the pixel size from the top level; the raw dictionary is kept |
| ExifService.ReadMetadata | ExifChanger/Services/ExifService.swift:15-69 | an unopenable file and a missing property dictionary are the two errors; an opened file with properties is always read, into the record `ExtractMetadata` describes |
| ImageProperties.NumberAt | ExifChanger/Services/ExifService.swift:199-200 | `as? Double` succeeds on every number, integral or not, and gives its value (without the range limits of `Double`, see Left out) |
| ImageProperties.IntegerAt | ExifChanger/Services/ExifService.swift:65-66 | `as? Int` succeeds on integers and on whole floating-point numbers only, and gives their value (without the 64-bit range of `Int`, see Left out) |
| ExifService.GPSRoundTrip | ExifChanger/Services/ExifService.swift:199-211 | the coordinate the writer encodes is decoded back unchanged |
| ExifService.KeywordsRoundTrip | ExifChanger/Services/ExifService.swift:128-137 | the keywords read back from the dictionary handed to the encoder are the keywords written, also for an empty list |
| ExifService.DatesRoundTrip | ExifChanger/Services/ExifService.swift:88-107 | when parsing inverts formatting, each date written is read back, and the TIFF date falls back to the capture date |
| ExifService.LocationRoundTrip | ExifChanger/Services/ExifService.swift:109-126 | the coordinate is read back from the dictionary handed to the encoder as written; the altitude comes back as its magnitude when a coordinate carries it, and is lost otherwise |
| ExifService.WriteThenRead | ExifChanger/Services/ExifService.swift:15-141 | reading back a written dictionary gives the written keywords, coordinate and dates, and the altitude's magnitude |
| ExifService.WriteThenReadIsUnchanged | ExifChanger/Services/ExifService.swift:15-141 | a record with both capture dates, a matching coordinate and no altitude below sea level reads back equal under `==` |
| ExifService.NegativeAltitudeComesBackPositive | ExifChanger/Services/ExifService.swift:118-121 | a negative altitude is read back as its magnitude, so the photo then differs from what was saved |
| Collections.Toggled | ExifChanger/ViewModels/PhotoLibraryViewModel.swift:86-92 | the toggled element flips membership and every other element keeps it |
| Collections.ToggleTwice | ExifChanger/Views/KeywordSelectorView.swift:118-124 | toggling twice restores the set |
| Collections.Elements | ExifChanger/ViewModels/PhotoLibraryViewModel.swift:158 | `Array(set)` lists every element of the set exactly once |
| Library.WithChanges | ExifChanger/ViewModels/PhotoLibraryViewModel.swift:38-42 | the dirty photos, in list order, all of them, with distinct ids when the list has them |
| Library.SupportedOnlyIsFilter | ExifChanger/ViewModels/PhotoLibraryViewModel.swift:55-57 | the URL filter of `addPhotos` is the order-keeping filter on the extension test |
| Library.SupportedOnlyContents | ExifChanger/ViewModels/PhotoLibraryViewModel.swift:55-57 | a URL is kept exactly when it has a supported extension, and the kept URLs keep their order |
| Library.SupportedExtensionMeansKnownFormat | ExifChanger/ViewModels/PhotoLibraryViewModel.swift:55-57 | a URL passes the filter exactly when its extension names an image format |
| Library.NewUrlsContents | ExifChanger/ViewModels/PhotoLibraryViewModel.swift:59-65 | the loop appends exactly the candidates not already listed, each once, never more than there are candidates |
| Library.NewUrlsStep | ExifChanger/ViewModels/PhotoLibraryViewModel.swift:60-63 | one more candidate is appended exactly when it is not listed yet |
| Library.NewUrlsKeepDistinct | ExifChanger/ViewModels/PhotoLibraryViewModel.swift:59-65 | adding photos keeps the listed URLs distinct |
| Library.StampDate | ExifChanger/ViewModels/PhotoLibraryViewModel.swift:127-131 | all three dates take the editing date and no other field changes |
| Library.StampLocation | ExifChanger/ViewModels/PhotoLibraryViewModel.swift:138-140 | the coordinate becomes the editing coordinate, and a nil coordinate clears both latitude and longitude; the altitude is kept, and nothing else changes |
| Library.StripLocation | ExifChanger/ViewModels/PhotoLibraryViewModel.swift:147-150 | latitude, longitude and altitude are cleared and nothing else changes |
| Library.StampKeywords | ExifChanger/ViewModels/PhotoLibraryViewModel.swift:157-159 | the keyword list is replaced, not merged, and nothing else changes |
| Library.StampedDateIsAChange | ExifChanger/ViewModels/PhotoLibraryViewModel.swift:125-131 | stamping a capture date the original lacks makes the photo dirty |
| Library.FileDateAloneIsNoChange | ExifChanger/ViewModels/PhotoLibraryViewModel.swift:130 | changing only the file date is never a change |
| Library.ApplyIsIdempotent | ExifChanger/ViewModels/PhotoLibraryViewModel.swift:125-162 | applying the same edit twice is applying it once |
| Library.AllCasesComplete | ExifChanger/ViewModels/PhotoLibraryViewModel.swift:267-280 | the twelve predefined keywords are listed once each |
| Library.RawValueInjective | ExifChanger/ViewModels/PhotoLibraryViewModel.swift:267-281 | the raw value (the `id`) identifies the keyword |
| Library.PhotoLibraryViewModel.constructor | ExifChanger/ViewModels/PhotoLibraryViewModel.swift:10-21 | an empty library, nothing selected, idle, the editing date given, file dates synchronised |
| Library.PhotoLibraryViewModel.SelectedPhotos | ExifChanger/ViewModels/PhotoLibraryViewModel.swift:26-28 | the listed photos whose id is selected, all of them, in list order |
| Library.PhotoLibraryViewModel.PhotosWithChanges | ExifChanger/ViewModels/PhotoLibraryViewModel.swift:38-42 | the listed photos with changes, all of them, in list order |
| Library.PhotoLibraryViewModel.IdsIdentifyPhotos | ExifChanger/Models/PhotoItem.swift:80-82 | in a library, equal ids mean the same photo |
| Library.PhotoLibraryViewModel.PendingOfDirty | ExifChanger/ViewModels/PhotoLibraryViewModel.swift:186 | every photo with changes has a pending snapshot, so the save loop's guard never skips |
| Library.PhotoLibraryViewModel.AddPhotos | ExifChanger/ViewModels/PhotoLibraryViewModel.swift:54-66 | the old list is kept as a prefix; the URLs become the old ones followed by the supported, not yet listed URLs, each once; every new photo is loading with a new id; the invariant holds |
| Library.PhotoLibraryViewModel.AddUrls | ExifChanger/ViewModels/PhotoLibraryViewModel.swift:59-65 | the loop appends one new photo for each candidate not yet listed, in order |
| Library.PhotoLibraryViewModel.AddUrl | ExifChanger/ViewModels/PhotoLibraryViewModel.swift:60-63 | a URL is appended exactly when it is neither in the starting list nor appended before |
| Library.PhotoLibraryViewModel.AppendPhoto | ExifChanger/ViewModels/PhotoLibraryViewModel.swift:62-63 | a fresh loading photo with the next id and the URL is appended |
| Library.PhotoLibraryViewModel.LoadPhotoData | ExifChanger/ViewModels/PhotoLibraryViewModel.swift:96-121 | a successful read sets both snapshots, so the photo is clean; a failed one records the error's description and keeps the snapshots; loading ends either way |
| Library.PhotoLibraryViewModel.RemoveSelectedPhotos | ExifChanger/ViewModels/PhotoLibraryViewModel.swift:68-71 | exactly the unselected photos remain, in order, and the selection is empty; only the list and the selection change |
| Library.PhotoLibraryViewModel.ClearAllPhotos | ExifChanger/ViewModels/PhotoLibraryViewModel.swift:73-76 | no photos and no selection; nothing else changes |
| Library.PhotoLibraryViewModel.SelectAll | ExifChanger/ViewModels/PhotoLibraryViewModel.swift:78-80 | the selection is every listed id, so the selected photos are the whole list |
| Library.PhotoLibraryViewModel.DeselectAll | ExifChanger/ViewModels/PhotoLibraryViewModel.swift:82-84 | nothing is selected |
| Library.PhotoLibraryViewModel.ToggleSelection | ExifChanger/ViewModels/PhotoLibraryViewModel.swift:86-92 | the photo's id flips in the selection and the selection stays within the listed ids |
| Library.PhotoLibraryViewModel.ApplyToSelected | ExifChanger/ViewModels/PhotoLibraryViewModel.swift:125-162 | every selected photo's pending snapshot takes the edit; unselected photos and every original stay as they were; every flag stays current |
| Library.PhotoLibraryViewModel.StagePending | ExifChanger/ViewModels/PhotoLibraryViewModel.swift:126-131 | the loop over the targets stages each one's edited snapshot and keeps its original |
| Library.PhotoLibraryViewModel.ApplyDateToSelected | ExifChanger/ViewModels/PhotoLibraryViewModel.swift:125-134 | selected photos get all three dates stamped on their pending snapshot (or on an empty record); nothing else changes, neither the originals nor any photo's loading state or error |
| Library.PhotoLibraryViewModel.ApplyLocationToSelected | ExifChanger/ViewModels/PhotoLibraryViewModel.swift:136-143 | selected photos get the editing coordinate; nothing else changes, neither the originals nor any photo's loading state or error |
| Library.PhotoLibraryViewModel.RemoveLocationFromSelected | ExifChanger/ViewModels/PhotoLibraryViewModel.swift:145-153 | selected photos lose coordinate and altitude; nothing else changes, neither the originals nor any photo's loading state or error |
| Library.PhotoLibraryViewModel.ApplyKeywordsToSelected | ExifChanger/ViewModels/PhotoLibraryViewModel.swift:155-162 | each selected photo's keywords list the editing set exactly, each once, and nothing else of its record changes; unselected photos keep their pending snapshot, and no photo's original, loading state or error changes |
| Library.PhotoLibraryViewModel.ResetSelectedChanges | ExifChanger/ViewModels/PhotoLibraryViewModel.swift:164-169 | selected photos drop their staged edits and are clean; the others keep their pending snapshot, and no photo's original, loading state or error changes |
| Library.PhotoLibraryViewModel.ResetAll | ExifChanger/ViewModels/PhotoLibraryViewModel.swift:165-167 | the loop resets every target, keeping its original, loading state and error |
| Library.FinishedFlagsMeaning | ExifChanger/ViewModels/PhotoLibraryViewModel.swift:206-220 | after saving the library is idle with progress cleared; it asks for write access with the permission message exactly when a write was refused; otherwise the last failure's message stays and the error shows when a turn failed |
| Library.Plan | ExifChanger/ViewModels/PhotoLibraryViewModel.swift:176-186 | one job per photo with changes, with its file name, URL and pending snapshot |
| Library.StepFor | ExifChanger/ViewModels/PhotoLibraryViewModel.swift:188-214 | a turn is refused exactly when the write lacks permission; another write error fails with its description; after a successful write the turn saves when no file-date update is due, and otherwise exactly when the update succeeds, failing with the update's message |
| Library.Steps | ExifChanger/ViewModels/PhotoLibraryViewModel.swift:185-214 | one step per job |
| Library.StepsAt | ExifChanger/ViewModels/PhotoLibraryViewModel.swift:185-214 | turn `i` is the step of job `i` |
| Library.FirstDenied | ExifChanger/ViewModels/PhotoLibraryViewModel.swift:206-210 | the loop never runs past the last job |
| Library.FirstDeniedIs | ExifChanger/ViewModels/PhotoLibraryViewModel.swift:206-210 | the loop stops at the first refused write, or after the last job when none is refused |
| Library.Committed | ExifChanger/ViewModels/PhotoLibraryViewModel.swift:204 | one original per job |
| Library.CommittedAt | ExifChanger/ViewModels/PhotoLibraryViewModel.swift:204 | a job's original is its written snapshot when its turn came and saved, and its old original otherwise |
| Library.CommittedSkip | ExifChanger/ViewModels/PhotoLibraryViewModel.swift:206-214 | a turn that does not save leaves every original as it was |
| Library.CommittedDirty | ExifChanger/ViewModels/PhotoLibraryViewModel.swift:185-214 | after the loop a photo is dirty exactly when its turn did not save and it was dirty before |
| Library.ErrorAfterNoFailure | ExifChanger/ViewModels/PhotoLibraryViewModel.swift:211-214 | without a failed turn the earlier error message stays |
| Library.ErrorAfterLastFailure | ExifChanger/ViewModels/PhotoLibraryViewModel.swift:211-214 | the message left is "filename: description" of the last failed turn |
| Library.AnyFailedStep | ExifChanger/ViewModels/PhotoLibraryViewModel.swift:211-214 | a failure has occurred after one more turn exactly when one had before or that turn failed |
| Library.TallyStep | ExifChanger/ViewModels/PhotoLibraryViewModel.swift:206-216 | a turn that is not refused updates the message, the failure flag and the progress reports as the loop does |
| Library.Counting | ExifChanger/ViewModels/PhotoLibraryViewModel.swift:216 | one progress report per completed turn |
| Library.CountingValues | ExifChanger/ViewModels/PhotoLibraryViewModel.swift:216 | the reports are 1, 2, …, n, the numerators of `(index + 1) / total` |
| Library.PhotoLibraryViewModel.SaveChanges | ExifChanger/ViewModels/PhotoLibraryViewModel.swift:175-222 | with no changes nothing happens; otherwise the turns run up to the first refused write, the flags are the finished state, every saved photo takes its pending snapshot as its original, pending snapshots, loading states and errors of the saved photos stay, other photos are untouched, and every flag stays current |
| Library.PhotoLibraryViewModel.SaveAll | ExifChanger/ViewModels/PhotoLibraryViewModel.swift:179-220 | the body of `saveChanges` once there are jobs, with the same outcome |
| Library.PhotoLibraryViewModel.FinishProcessing | ExifChanger/ViewModels/PhotoLibraryViewModel.swift:206-220 | the flags become the finished state for where the loop stopped |
| Library.PhotoLibraryViewModel.RunTurns | ExifChanger/ViewModels/PhotoLibraryViewModel.swift:185-217 | the loop stops at the first refused write with the message, failure flag and reports of the turns before it, and commits exactly the saved turns; no job's pending snapshot, loading state or error changes |
| Library.PhotoLibraryViewModel.SaveTurn | ExifChanger/ViewModels/PhotoLibraryViewModel.swift:185-217 | one turn takes the job's step and commits its snapshot only if it saved; no job's pending snapshot, loading state or error changes |
| Library.PhotoLibraryViewModel.SaveOne | ExifChanger/ViewModels/PhotoLibraryViewModel.swift:186-214 | the write, then the file-date update when due; only when both succeed does the snapshot become the original; otherwise the photo is untouched |
| Text.ReplaceChar | ExifChanger/Services/VisionService.swift:103 | every occurrence of the character is replaced, all others kept |
| Vision.FormatKeywordIgnoresUnderscores | ExifChanger/Services/VisionService.swift:101-105 | the underscore rule: identifiers differing only in underscore against space give the same keyword, whatever the capitalisation does |
| Vision.FormattedHasNoUnderscore | ExifChanger/Services/VisionService.swift:101-105 | the underscore rule: the text handed to `capitalized` holds no underscore |
| Vision.Kept | ExifChanger/Services/VisionService.swift:38-40 | the first qualifying observations, in their order: all of them when fewer than 10 qualify, otherwise the first 10; each is at or above 0.40 |
| Vision.ClassifyImage | ExifChanger/Services/VisionService.swift:21-57 | a load failure and a request failure are the two errors; no results give no suggestions; otherwise one formatted suggestion per kept observation, in order, so at most 10, each at or above 0.40 |
| Vision.MergeAllIsMax | ExifChanger/Services/VisionService.swift:71-75 | a keyword is merged exactly when some suggestion names it, with the highest confidence any of them gave it |
| Vision.MergedMeaning | ExifChanger/Services/VisionService.swift:65-75 | the merge of `classifyImages` holds exactly the keywords of the classified images, each with its maximum confidence, which is at least 0.40 |
| Vision.MergeOfQualifying | ExifChanger/Services/VisionService.swift:71-75 | merging suggestions that meet the threshold gives exactly their keywords, each with its highest confidence, which meets the threshold |
| Vision.FailedImageContributesNothing | ExifChanger/Services/VisionService.swift:76-79 | dropping an image whose classification threw leaves the merge unchanged |
| Vision.ProgressReportsSuccesses | ExifChanger/Services/VisionService.swift:81 | progress is reported, in increasing order, exactly for the images that were classified |
| Vision.MergeSuggestions | ExifChanger/Services/VisionService.swift:71-75 | the inner loop leaves the merge of the image's suggestions into the dictionary |
| Vision.ClassifyImages | ExifChanger/Services/VisionService.swift:64-87 | the reports are those of the classified images; the result lists every merged keyword once with its merged confidence, sorted by non-increasing confidence |
| Vision.SortedByConfidence | ExifChanger/Services/VisionService.swift:84-86 | every entry of the dictionary exactly once, with its value, sorted by non-increasing confidence |
| KeywordSelector.KeywordSet | ExifChanger/Views/KeywordSelectorView.swift:97 | `Set(keywords)` holds exactly the listed keywords |
| KeywordSelector.ToggleFlipsOneChip | ExifChanger/Views/KeywordSelectorView.swift:32-38 | toggling a chip's keyword flips that chip's selection and no other chip's |
| KeywordSelector.AddTrimmed | ExifChanger/Views/KeywordSelectorView.swift:126-131 | blank input changes nothing; otherwise exactly the trimmed text is added |
| Text.Trim | ExifChanger/Views/KeywordSelectorView.swift:127 | the trimmed text is empty exactly when the input is all whitespace, and otherwise neither starts nor ends with whitespace |
| Text.TrimOfPadded | ExifChanger/Views/KeywordSelectorView.swift:127 | trimming removes exactly the surrounding whitespace: text padded on either side trims back to that text |
| Text.TrimIdempotent | ExifChanger/Views/KeywordSelectorView.swift:127 | trimming twice is trimming once |
| KeywordSelector.AddedKeywordIsTrimmed | ExifChanger/Views/KeywordSelectorView.swift:126-131 | a keyword added from the field is non-empty with no surrounding whitespace, and adding the same input again changes nothing |
| KeywordSelector.KeywordSelectorView.constructor | ExifChanger/Views/KeywordSelectorView.swift:4-5 | the custom keyword field starts empty |
| KeywordSelector.KeywordSelectorView.ToggleKeyword | ExifChanger/Views/KeywordSelectorView.swift:118-124 | the keyword is removed when staged and inserted otherwise |
| KeywordSelector.KeywordSelectorView.TapChip | ExifChanger/Views/KeywordSelectorView.swift:32-38 | the tapped chip's selection flips and every other chip keeps its own |
| KeywordSelector.KeywordSelectorView.AddCustomKeyword | ExifChanger/Views/KeywordSelectorView.swift:126-131 | blank input changes nothing; otherwise the trimmed text is staged and the field is cleared |
| KeywordSelector.KeywordSelectorView.Clear | ExifChanger/Views/KeywordSelectorView.swift:87-89 | nothing is staged |
| KeywordSelector.KeywordSelectorView.LoadFromPhoto | ExifChanger/Views/KeywordSelectorView.swift:94-98 | the staged set becomes the first selected photo's original keywords; without a selection or an original nothing changes |
| KeywordSelector.KeywordSelectorView.RemoveKeyword | ExifChanger/Views/KeywordSelectorView.swift:68-70 | exactly that keyword leaves the staged set |

## Left out

- Image encoding and decoding (ImageIO sources and destinations, thumbnails): what a file yields and how the final write ends are inputs (`ImageSource`, `Destination`, the `write` parameter).
- What the written file holds: the write's result and the round trips (`KeywordsRoundTrip`, `LocationRoundTrip`, `WriteThenRead`, `WriteThenReadIsUnchanged`) are about the dictionary handed to `CGImageDestinationAddImageFromSource`, not about the file read back later. ImageIO lays that dictionary over the source image's own properties, so an entry the dictionary leaves out may stay in the file. This applies to the GPS dictionary removed for a cleared location and to the IPTC keywords removed for an empty list.
- Date formatting and parsing, and `String.capitalized`: both depend on the locale, so they are function parameters. The round trips assume the parser inverts the formatter.
- Floating point: `Double` and `Float` are `real`. There is no NaN, infinity, rounding or signed zero, and the 0.40 threshold is exact.
- Letter case: `lowercased()` is modelled for ASCII letters only. Trimming uses tab plus the Unicode space separators, and nothing else of Unicode is modelled.
- Localized strings are the English texts.
- The display-only formatters `formattedExposure`, `formattedFocalLength` and `formattedAperture` are not modelled (they are floating-point formatting).
- Concurrency: the `Task`s and `async` calls are sequential steps. `LoadPhotoData` is the body of the background load with the read's result as input, and `addPhotos` does not call it.
- `FileSystemService` is an input: the file-date update is the `updateDates` parameter.
- The `write` and `updateDates` parameters of the save loop are deterministic functions of the URL and the record.
- Observation plumbing (`objectWillChange`, `changeCounter`, `notifyChanges`) is not modelled.
- `requestWriteAccessForPhotos` and `showOpenPanel` are not modelled; they only drive `NSOpenPanel`.
- The user interface views (`MainView`, `HelpView`, `PhotoGridView`, `PhotoDropZone`, `MetadataInspectorView`, `DateTimeEditorView`, the layout of `KeywordSelectorView`) and `LocationPickerView` are not part of this model.
- Photo ids: `UUID()` is a counter `nextId` of the view model, and photos are compared by id as `PhotoItem.==` does.
- `processingProgress` is the pair `progressDone`/`progressTotal`. The value it takes after each turn is the returned list of progress numerators.
- Number widths: `Int` is an unbounded `int` and `Double` an exact `real`. The range limits of NSNumber bridging are not modelled. Swift's `as? Int` gives nil for a whole number outside the 64-bit range, and `as? Double` gives nil for an integer a `Double` cannot hold exactly; `IntegerAt` and `NumberAt` answer `Some` for both.
- Number arrays: `as? [Int]` (the ISO speed) is modelled on integer arrays only. An array of floating-point numbers that are all whole, which Swift would also bridge, is not modelled.
- `KeywordSuggestion`'s `UUID` and its `confidencePercentage` are not modelled. The classifier's `loadCGImage` is the `NotLoaded` outcome.
- Library.PhotoLibraryViewModel.AddPhotos: states that every appended photo has an id from the old `nextId` on and is loading. It does not state that the objects are newly allocated; only `AppendPhoto` states that.
- Library.PhotoLibraryViewModel.ToggleSelection: requires the photo to be listed, the only case the grid offers. The source would also select an id that is not listed.
- Library.PhotoLibraryViewModel.SaveChanges: the busy state during the loop is not a separate model state. While the loop runs the source shows `isProcessing`, progress 0 and `needsWriteAccess` cleared. The model writes the flags once, after the loop, with the values the source leaves, and the error message and flag written inside the loop are folded into that final write.
- Library.PhotoLibraryViewModel.ApplyKeywordsToSelected: the order of the keyword list built from the editing set is not determined, as Swift's set order is unspecified. Only its contents are stated.
- Vision.SortedByConfidence: keywords of equal confidence come in no particular order. The source's order for them depends on the dictionary's iteration order.
- Where the code and the documented intent differ, the model follows the code:
  - keywords compare as ordered lists;
  - the file date (`dateTime`) is not part of `==`;
  - a negative altitude is written as a magnitude with reference 1 and read back as the magnitude.
