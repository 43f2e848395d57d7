/** Reading an `ExifMetadata` out of an image's property dictionary and
    merging one back into it (`ExifService`). The image codec itself is
    outside the model: what opening the file and writing it back yield is
    given as input, and so are the date formatter and parser. */
module ExifService {
  import opened Wrappers
  import opened Metadata
  import opened ImageProperties
  import opened Collections

  datatype ExifError =
    | CannotOpenFile
    | CannotReadMetadata
    | UnsupportedFormat
    | CannotCreateDestination
    | WriteFailed
    | NoWritePermission

  /** `errorDescription` (the English texts). */
  function Description(e: ExifError): string {
    match e
    case CannotOpenFile => CannotOpenFileText
    case CannotReadMetadata => CannotReadMetadataText
    case UnsupportedFormat => UnsupportedFormatText
    case CannotCreateDestination => CannotCreateDestinationText
    case WriteFailed => WriteFailedText
    case NoWritePermission => NoWritePermissionText
  }

  // The descriptions, in English.
  const CannotOpenFileText := "Cannot open the image file"
  const CannotReadMetadataText := "Cannot read image metadata"
  const UnsupportedFormatText := "Image format not supported"
  const CannotCreateDestinationText := "Cannot create output file"
  const WriteFailedText := "Failed to write changes"
  const NoWritePermissionText := "No permission to write. Please use File > Open to add photos instead of drag and drop."

  /** What ImageIO yields for a file: no image source at all, or a source
      whose first image has (or lacks) a property dictionary. */
  datatype ImageSource = Unopenable | Opened(properties: Option<Properties>)

  /** How the final steps of a write go: creating the encoder, finalizing
      the encoded data, and writing that data over the file. */
  datatype Destination = DestinationUnavailable | FinalizeFails | FileWriteFails | Written

  function Abs(x: real): (r: real)
    ensures r >= 0.0 && (r == x || r == -x)
  {
    if x >= 0.0 then x else -x
  }

  // ---------------------------------------------------------------------------
  // Write
  // ---------------------------------------------------------------------------

  /** The GPS dictionary the writer builds from scratch: magnitudes with
      hemisphere references, the version tag, and the altitude as a magnitude
      with reference 0 (above sea level) or 1 (below). */
  function GPSDictionaryFor(c: Coordinate, altitude: Option<real>): (g: Properties)
    ensures Lookup(g, GPSLatitude) == Some(Number(Abs(c.latitude)))
    ensures Lookup(g, GPSLatitudeRef) == Some(Text(if c.latitude >= 0.0 then "N" else "S"))
    ensures Lookup(g, GPSLongitude) == Some(Number(Abs(c.longitude)))
    ensures Lookup(g, GPSLongitudeRef) == Some(Text(if c.longitude >= 0.0 then "E" else "W"))
    ensures Lookup(g, GPSVersion) == Some(Text("2.3.0.0"))
    ensures Lookup(g, GPSAltitude) == (if altitude.Some? then Some(Number(Abs(altitude.value))) else None)
    ensures Lookup(g, GPSAltitudeRef) ==
      (if altitude.Some? then Some(Integer(if altitude.value >= 0.0 then 0 else 1)) else None)
    ensures g.Keys <= {GPSLatitude, GPSLatitudeRef, GPSLongitude, GPSLongitudeRef, GPSVersion, GPSAltitude, GPSAltitudeRef}
  {
    GPSKeysDistinct();
    var base := map[
      GPSLatitude := Number(Abs(c.latitude)),
      GPSLatitudeRef := Text(if c.latitude >= 0.0 then "N" else "S"),
      GPSLongitude := Number(Abs(c.longitude)),
      GPSLongitudeRef := Text(if c.longitude >= 0.0 then "E" else "W"),
      GPSVersion := Text("2.3.0.0")];
    match altitude
    case None => base
    case Some(a) => base[GPSAltitude := Number(Abs(a))][GPSAltitudeRef := Integer(if a >= 0.0 then 0 else 1)]
  }

  /** The Exif dictionary after the write: the two date entries are
      overwritten when the record has those dates, everything else is kept. */
  function MergeExif(was: Properties, m: ExifMetadata, formatDate: Date -> string): (exif: Properties)
    ensures AgreeExcept(exif, was, {ExifDateTimeOriginal, ExifDateTimeDigitized})
    ensures Lookup(exif, ExifDateTimeOriginal) ==
      (if m.dateTimeOriginal.Some? then Some(Text(formatDate(m.dateTimeOriginal.value)))
       else Lookup(was, ExifDateTimeOriginal))
    ensures Lookup(exif, ExifDateTimeDigitized) ==
      (if m.dateTimeDigitized.Some? then Some(Text(formatDate(m.dateTimeDigitized.value)))
       else Lookup(was, ExifDateTimeDigitized))
  {
    assert |ExifDateTimeOriginal| != |ExifDateTimeDigitized|;
    var withOriginal :=
      if m.dateTimeOriginal.Some? then was[ExifDateTimeOriginal := Text(formatDate(m.dateTimeOriginal.value))] else was;
    if m.dateTimeDigitized.Some? then withOriginal[ExifDateTimeDigitized := Text(formatDate(m.dateTimeDigitized.value))]
    else withOriginal
  }

  /** The TIFF dictionary after the write: the file date is overwritten with
      `dateTime`, or with the capture date when `dateTime` is absent. */
  function MergeTiff(was: Properties, m: ExifMetadata, formatDate: Date -> string): (tiff: Properties)
    ensures AgreeExcept(tiff, was, {TIFFDateTime})
    ensures Lookup(tiff, TIFFDateTime) ==
      (if m.dateTime.Some? then Some(Text(formatDate(m.dateTime.value)))
       else if m.dateTimeOriginal.Some? then Some(Text(formatDate(m.dateTimeOriginal.value)))
       else Lookup(was, TIFFDateTime))
  {
    var date := if m.dateTime.Some? then m.dateTime else m.dateTimeOriginal;
    if date.Some? then was[TIFFDateTime := Text(formatDate(date.value))] else was
  }

  /** The IPTC dictionary after the write: keywords set when there are any,
      removed when there are none, everything else kept. */
  function MergeIptc(was: Properties, m: ExifMetadata): (iptc: Properties)
    ensures AgreeExcept(iptc, was, {IPTCKeywords})
    ensures Lookup(iptc, IPTCKeywords) == (if m.keywords != [] then Some(Texts(m.keywords)) else None)
  {
    if m.keywords != [] then was[IPTCKeywords := Texts(m.keywords)] else was - {IPTCKeywords}
  }

  /** The property merge of `writeMetadata`. Every top-level entry other than
      the four metadata dictionaries is kept; the Exif, TIFF and IPTC
      dictionaries are always present afterwards, merged as above; the GPS
      dictionary is rebuilt from the coordinate, or dropped when there is
      none. */
  function WriteProperties(existing: Properties, m: ExifMetadata, formatDate: Date -> string): (r: Properties)
    ensures AgreeExcept(r, existing, {ExifDictionary, TIFFDictionary, GPSDictionary, IPTCDictionary})
    ensures DictionaryAt(r, ExifDictionary) == Some(MergeExif(DictionaryOrEmpty(existing, ExifDictionary), m, formatDate))
    ensures DictionaryAt(r, TIFFDictionary) == Some(MergeTiff(DictionaryOrEmpty(existing, TIFFDictionary), m, formatDate))
    ensures DictionaryAt(r, IPTCDictionary) == Some(MergeIptc(DictionaryOrEmpty(existing, IPTCDictionary), m))
    ensures GetCoordinate(m).Some? ==>
      Lookup(r, GPSDictionary) == Some(Dictionary(GPSDictionaryFor(GetCoordinate(m).value, m.altitude)))
    ensures GetCoordinate(m).None? ==> GPSDictionary !in r
  {
    TopLevelKeysDistinct();
    var withExif := existing[ExifDictionary := Dictionary(MergeExif(DictionaryOrEmpty(existing, ExifDictionary), m, formatDate))];
    var withTiff := withExif[TIFFDictionary := Dictionary(MergeTiff(DictionaryOrEmpty(existing, TIFFDictionary), m, formatDate))];
    var withGps :=
      match GetCoordinate(m)
      case Some(c) => withTiff[GPSDictionary := Dictionary(GPSDictionaryFor(c, m.altitude))]
      case None => withTiff - {GPSDictionary};
    withGps[IPTCDictionary := Dictionary(MergeIptc(DictionaryOrEmpty(existing, IPTCDictionary), m))]
  }

  lemma TopLevelKeysDistinct()
    ensures ExifDictionary != TIFFDictionary && ExifDictionary != GPSDictionary && ExifDictionary != IPTCDictionary
    ensures TIFFDictionary != GPSDictionary && TIFFDictionary != IPTCDictionary && GPSDictionary != IPTCDictionary
  {
    assert ExifDictionary[1] == 'E' && TIFFDictionary[1] == 'T' && GPSDictionary[1] == 'G' && IPTCDictionary[1] == 'I';
  }

  lemma GPSKeysDistinct()
    ensures Distinct([GPSLatitude, GPSLatitudeRef, GPSLongitude, GPSLongitudeRef, GPSVersion, GPSAltitude, GPSAltitudeRef])
  {
    assert |GPSLatitude| == 8 && |GPSLatitudeRef| == 11 && |GPSLongitude| == 9 && |GPSLongitudeRef| == 12;
    assert |GPSVersion| == 10 && |GPSAltitude| == 8 && |GPSAltitudeRef| == 11;
    assert GPSLatitude[0] == 'L' && GPSAltitude[0] == 'A';
    assert GPSLatitudeRef[0] == 'L' && GPSAltitudeRef[0] == 'A';
  }

  /** `writeMetadata(to:metadata:)`: the type lookup for the file extension,
      opening the source, reading its properties, then encoding and writing.
      On success the result is the dictionary handed to the encoder: the
      source's properties with the record merged in. Any failure of the
      final file write is reported as a missing write permission. */
  function WriteMetadata(knownType: bool, source: ImageSource, m: ExifMetadata,
                         formatDate: Date -> string, destination: Destination): (r: Result<Properties, ExifError>)
    ensures !knownType <==> r == Failure(UnsupportedFormat)
    ensures knownType && source.Unopenable? <==> r == Failure(CannotOpenFile)
    ensures knownType && source == Opened(None) <==> r == Failure(CannotReadMetadata)
    ensures knownType && source.Opened? && source.properties.Some? && destination == DestinationUnavailable ==>
      r == Failure(CannotCreateDestination)
    ensures knownType && source.Opened? && source.properties.Some? && destination == FinalizeFails ==>
      r == Failure(WriteFailed)
    ensures r == Failure(NoWritePermission) <==>
      knownType && source.Opened? && source.properties.Some? && destination == FileWriteFails
    ensures r.Success? <==> knownType && source.Opened? && source.properties.Some? && destination == Written
    ensures r.Success? ==> r.value == WriteProperties(source.properties.value, m, formatDate)
  {
    if !knownType then Failure(UnsupportedFormat)
    else match source
      case Unopenable => Failure(CannotOpenFile)
      case Opened(None) => Failure(CannotReadMetadata)
      case Opened(Some(existing)) =>
        var updated := WriteProperties(existing, m, formatDate);
        match destination
        case DestinationUnavailable => Failure(CannotCreateDestination)
        case FinalizeFails => Failure(WriteFailed)
        case FileWriteFails => Failure(NoWritePermission)
        case Written => Success(updated)
  }

  // ---------------------------------------------------------------------------
  // Read
  // ---------------------------------------------------------------------------

  /** `parseGPSCoordinate(from:)`: needs all four of latitude, its reference,
      longitude and its reference; "S" and "W" make the value negative. */
  function ParseGPSCoordinate(gps: Properties): (r: Option<Coordinate>)
    ensures r.Some? <==>
      NumberAt(gps, GPSLatitude).Some? && TextAt(gps, GPSLatitudeRef).Some? &&
      NumberAt(gps, GPSLongitude).Some? && TextAt(gps, GPSLongitudeRef).Some?
    ensures r.Some? ==>
      r.value.latitude ==
        (if TextAt(gps, GPSLatitudeRef).value == "S" then -NumberAt(gps, GPSLatitude).value else NumberAt(gps, GPSLatitude).value)
    ensures r.Some? ==>
      r.value.longitude ==
        (if TextAt(gps, GPSLongitudeRef).value == "W" then -NumberAt(gps, GPSLongitude).value else NumberAt(gps, GPSLongitude).value)
  {
    match (NumberAt(gps, GPSLatitude), TextAt(gps, GPSLatitudeRef), NumberAt(gps, GPSLongitude), TextAt(gps, GPSLongitudeRef))
    case (Some(latitude), Some(latitudeRef), Some(longitude), Some(longitudeRef)) =>
      var lat := if latitudeRef == "S" then -latitude else latitude;
      var lon := if longitudeRef == "W" then -longitude else longitude;
      Some(Coordinate(lat, lon))
    case _ => None
  }

  /** `parseExifDate`: no string, no date; otherwise the formatter decides. */
  function ParseExifDate(s: Option<string>, parseDate: string -> Option<Date>): Option<Date> {
    match s
    case None => None
    case Some(text) => parseDate(text)
  }

  /** The date the reader finds under `key` of the dictionary `dictionary`. */
  function DateIn(properties: Properties, dictionary: string, key: string, parseDate: string -> Option<Date>): Option<Date> {
    match DictionaryAt(properties, dictionary)
    case None => None
    case Some(d) => ParseExifDate(TextAt(d, key), parseDate)
  }

  /** The text the reader finds under `key` of the dictionary `dictionary`. */
  function TextIn(properties: Properties, dictionary: string, key: string): Option<string> {
    match DictionaryAt(properties, dictionary)
    case None => None
    case Some(d) => TextAt(d, key)
  }

  /** The number (`as? Double`) the reader finds under `key` of `dictionary`. */
  function NumberIn(properties: Properties, dictionary: string, key: string): Option<real> {
    match DictionaryAt(properties, dictionary)
    case None => None
    case Some(d) => NumberAt(d, key)
  }

  /** The integer (`as? Int`) the reader finds under `key` of `dictionary`. */
  function IntegerIn(properties: Properties, dictionary: string, key: string): Option<int> {
    match DictionaryAt(properties, dictionary)
    case None => None
    case Some(d) => IntegerAt(d, key)
  }

  /** The first integer of the list the reader finds under `key` of `dictionary`. */
  function FirstIntegerIn(properties: Properties, dictionary: string, key: string): Option<int> {
    match DictionaryAt(properties, dictionary)
    case None => None
    case Some(d) => FirstIntegerAt(d, key)
  }

  /** The keywords the reader finds: the IPTC keyword list, or none. */
  function KeywordsIn(properties: Properties): seq<string> {
    match DictionaryAt(properties, IPTCDictionary)
    case None => []
    case Some(iptc) => TextsAt(iptc, IPTCKeywords).GetOr([])
  }

  /** Copy the Exif entries into the record. */
  function WithExif(m: ExifMetadata, exif: Properties, parseDate: string -> Option<Date>): (r: ExifMetadata)
    ensures r.dateTimeOriginal == ParseExifDate(TextAt(exif, ExifDateTimeOriginal), parseDate)
    ensures r.dateTimeDigitized == ParseExifDate(TextAt(exif, ExifDateTimeDigitized), parseDate)
    ensures r.fNumber == NumberAt(exif, ExifFNumber)
    ensures r.isoSpeed == FirstIntegerAt(exif, ExifISOSpeedRatings)
    ensures r.exposureTime == NumberAt(exif, ExifExposureTime)
    ensures r.focalLength == NumberAt(exif, ExifFocalLength)
    ensures r.flash.Some? <==> IntegerAt(exif, ExifFlash).Some?
    ensures r.flash.Some? ==> (r.flash.value <==> IntegerAt(exif, ExifFlash).value != 0)
    ensures r.lensMake == TextAt(exif, ExifLensMake)
    ensures r.lensModel == TextAt(exif, ExifLensModel)
    ensures r.(dateTimeOriginal := m.dateTimeOriginal, dateTimeDigitized := m.dateTimeDigitized, fNumber := m.fNumber,
               isoSpeed := m.isoSpeed, exposureTime := m.exposureTime, focalLength := m.focalLength, flash := m.flash,
               lensMake := m.lensMake, lensModel := m.lensModel) == m
  {
    m.(dateTimeOriginal := ParseExifDate(TextAt(exif, ExifDateTimeOriginal), parseDate),
       dateTimeDigitized := ParseExifDate(TextAt(exif, ExifDateTimeDigitized), parseDate),
       fNumber := NumberAt(exif, ExifFNumber),
       isoSpeed := FirstIntegerAt(exif, ExifISOSpeedRatings),
       exposureTime := NumberAt(exif, ExifExposureTime),
       focalLength := NumberAt(exif, ExifFocalLength),
       flash := (match IntegerAt(exif, ExifFlash) case Some(f) => Some(f != 0) case None => None),
       lensMake := TextAt(exif, ExifLensMake),
       lensModel := TextAt(exif, ExifLensModel))
  }

  /** Copy the TIFF entries into the record. */
  function WithTiff(m: ExifMetadata, tiff: Properties, parseDate: string -> Option<Date>): (r: ExifMetadata)
    ensures r.dateTime == ParseExifDate(TextAt(tiff, TIFFDateTime), parseDate)
    ensures r.cameraMake == TextAt(tiff, TIFFMake)
    ensures r.cameraModel == TextAt(tiff, TIFFModel)
    ensures r.software == TextAt(tiff, TIFFSoftware)
    ensures r.artist == TextAt(tiff, TIFFArtist)
    ensures r.copyright == TextAt(tiff, TIFFCopyright)
    ensures r.orientation == IntegerAt(tiff, TIFFOrientation)
    ensures r.(dateTime := m.dateTime, cameraMake := m.cameraMake, cameraModel := m.cameraModel, software := m.software,
               artist := m.artist, copyright := m.copyright, orientation := m.orientation) == m
    ensures Tracked(r) == Tracked(m)
  {
    m.(dateTime := ParseExifDate(TextAt(tiff, TIFFDateTime), parseDate),
       cameraMake := TextAt(tiff, TIFFMake),
       cameraModel := TextAt(tiff, TIFFModel),
       software := TextAt(tiff, TIFFSoftware),
       artist := TextAt(tiff, TIFFArtist),
       copyright := TextAt(tiff, TIFFCopyright),
       orientation := IntegerAt(tiff, TIFFOrientation))
  }

  /** The field-by-field extraction of `readMetadata` from a property
      dictionary: dates, exposure and lens from the Exif dictionary, file
      date, camera, authorship and orientation from the TIFF dictionary, the
      position from the GPS dictionary, keywords from the IPTC dictionary,
      and the pixel size from the top level. A field whose dictionary or
      entry is missing, or holds a value of another type, stays nil. */
  function ExtractMetadata(properties: Properties, parseDate: string -> Option<Date>): (r: ExifMetadata)
    ensures r.allProperties == Some(properties)
    ensures r.dateTimeOriginal == DateIn(properties, ExifDictionary, ExifDateTimeOriginal, parseDate)
    ensures r.dateTimeDigitized == DateIn(properties, ExifDictionary, ExifDateTimeDigitized, parseDate)
    ensures r.dateTime == DateIn(properties, TIFFDictionary, TIFFDateTime, parseDate)
    ensures GetCoordinate(r) ==
      (if DictionaryAt(properties, GPSDictionary).Some? then ParseGPSCoordinate(DictionaryAt(properties, GPSDictionary).value)
       else None)
    ensures GetCoordinate(r).None? ==> r.latitude.None? && r.longitude.None?
    ensures r.altitude ==
      (if DictionaryAt(properties, GPSDictionary).Some? then NumberAt(DictionaryAt(properties, GPSDictionary).value, GPSAltitude)
       else None)
    ensures r.keywords == KeywordsIn(properties)
    ensures r.fNumber == NumberIn(properties, ExifDictionary, ExifFNumber)
    ensures r.isoSpeed == FirstIntegerIn(properties, ExifDictionary, ExifISOSpeedRatings)
    ensures r.exposureTime == NumberIn(properties, ExifDictionary, ExifExposureTime)
    ensures r.focalLength == NumberIn(properties, ExifDictionary, ExifFocalLength)
    ensures r.flash.Some? <==> IntegerIn(properties, ExifDictionary, ExifFlash).Some?
    ensures r.flash.Some? ==> (r.flash.value <==> IntegerIn(properties, ExifDictionary, ExifFlash).value != 0)
    ensures r.lensMake == TextIn(properties, ExifDictionary, ExifLensMake)
    ensures r.lensModel == TextIn(properties, ExifDictionary, ExifLensModel)
    ensures r.cameraMake == TextIn(properties, TIFFDictionary, TIFFMake)
    ensures r.cameraModel == TextIn(properties, TIFFDictionary, TIFFModel)
    ensures r.software == TextIn(properties, TIFFDictionary, TIFFSoftware)
    ensures r.artist == TextIn(properties, TIFFDictionary, TIFFArtist)
    ensures r.copyright == TextIn(properties, TIFFDictionary, TIFFCopyright)
    ensures r.orientation == IntegerIn(properties, TIFFDictionary, TIFFOrientation)
    ensures r.pixelWidth == IntegerAt(properties, PixelWidth)
    ensures r.pixelHeight == IntegerAt(properties, PixelHeight)
  {
    var m0 := ExifMetadata(allProperties := Some(properties));
    var m1 :=
      match DictionaryAt(properties, ExifDictionary)
      case None => m0
      case Some(exif) => WithExif(m0, exif, parseDate);
    var m2 :=
      match DictionaryAt(properties, TIFFDictionary)
      case None => m1
      case Some(tiff) => WithTiff(m1, tiff, parseDate);
    var m3 :=
      match DictionaryAt(properties, GPSDictionary)
      case None => m2
      case Some(gps) => SetCoordinate(m2, ParseGPSCoordinate(gps)).(altitude := NumberAt(gps, GPSAltitude));
    var m4 :=
      match DictionaryAt(properties, IPTCDictionary)
      case None => m3
      case Some(iptc) =>
        match TextsAt(iptc, IPTCKeywords)
        case Some(keywords) => m3.(keywords := keywords)
        case None => m3;
    m4.(pixelWidth := IntegerAt(properties, PixelWidth), pixelHeight := IntegerAt(properties, PixelHeight))
  }

  /** `readMetadata(from:)` */
  function ReadMetadata(source: ImageSource, parseDate: string -> Option<Date>): (r: Result<ExifMetadata, ExifError>)
    ensures source.Unopenable? <==> r == Failure(CannotOpenFile)
    ensures source == Opened(None) <==> r == Failure(CannotReadMetadata)
    ensures source.Opened? && source.properties.Some? ==> r == Success(ExtractMetadata(source.properties.value, parseDate))
  {
    match source
    case Unopenable => Failure(CannotOpenFile)
    case Opened(None) => Failure(CannotReadMetadata)
    case Opened(Some(properties)) => Success(ExtractMetadata(properties, parseDate))
  }

  // ---------------------------------------------------------------------------
  // Round trips
  // ---------------------------------------------------------------------------

  /** The coordinate the writer encodes is decoded back unchanged. */
  lemma GPSRoundTrip(c: Coordinate, altitude: Option<real>)
    ensures ParseGPSCoordinate(GPSDictionaryFor(c, altitude)) == Some(c)
  {
    var g := GPSDictionaryFor(c, altitude);
    assert NumberAt(g, GPSLatitude) == Some(Abs(c.latitude));
    assert NumberAt(g, GPSLongitude) == Some(Abs(c.longitude));
    assert TextAt(g, GPSLatitudeRef) == Some(if c.latitude >= 0.0 then "N" else "S");
    assert TextAt(g, GPSLongitudeRef) == Some(if c.longitude >= 0.0 then "E" else "W");
    assert "N" != "S" && "E" != "W";
  }

  /** Keywords written are the keywords read back (an empty list removes
      the entry, and a missing entry reads as no keywords). */
  lemma KeywordsRoundTrip(existing: Properties, m: ExifMetadata, formatDate: Date -> string)
    ensures KeywordsIn(WriteProperties(existing, m, formatDate)) == m.keywords
  {
    var iptc := DictionaryAt(WriteProperties(existing, m, formatDate), IPTCDictionary).value;
    if m.keywords != [] {
      assert Lookup(iptc, IPTCKeywords) == Some(Texts(m.keywords));
    } else {
      assert Lookup(iptc, IPTCKeywords) == None;
    }
  }

  /** Each date written is the date read back, when the parser inverts the
      formatter; the TIFF file date falls back to the capture date. */
  lemma DatesRoundTrip(existing: Properties, m: ExifMetadata,
                       formatDate: Date -> string, parseDate: string -> Option<Date>)
    requires forall d :: parseDate(formatDate(d)) == Some(d)
    ensures var w := WriteProperties(existing, m, formatDate);
      && (m.dateTimeOriginal.Some? ==> DateIn(w, ExifDictionary, ExifDateTimeOriginal, parseDate) == m.dateTimeOriginal)
      && (m.dateTimeDigitized.Some? ==> DateIn(w, ExifDictionary, ExifDateTimeDigitized, parseDate) == m.dateTimeDigitized)
      && (m.dateTime.Some? ==> DateIn(w, TIFFDictionary, TIFFDateTime, parseDate) == m.dateTime)
      && (m.dateTime.None? && m.dateTimeOriginal.Some? ==>
            DateIn(w, TIFFDictionary, TIFFDateTime, parseDate) == m.dateTimeOriginal)
  {
    var w := WriteProperties(existing, m, formatDate);
    var exif := DictionaryAt(w, ExifDictionary).value;
    if m.dateTimeOriginal.Some? {
      assert Lookup(exif, ExifDateTimeOriginal) == Some(Text(formatDate(m.dateTimeOriginal.value)));
    }
    if m.dateTimeDigitized.Some? {
      assert Lookup(exif, ExifDateTimeDigitized) == Some(Text(formatDate(m.dateTimeDigitized.value)));
    }
    var tiff := DictionaryAt(w, TIFFDictionary).value;
    if m.dateTime.Some? {
      assert Lookup(tiff, TIFFDateTime) == Some(Text(formatDate(m.dateTime.value)));
    } else if m.dateTimeOriginal.Some? {
      assert Lookup(tiff, TIFFDateTime) == Some(Text(formatDate(m.dateTimeOriginal.value)));
    }
  }

  /** The coordinate comes back as written; the altitude comes back as its
      magnitude when a coordinate carries it, and is lost when there is no
      coordinate. */
  lemma LocationRoundTrip(existing: Properties, m: ExifMetadata, formatDate: Date -> string)
    ensures var w := WriteProperties(existing, m, formatDate);
      && (if DictionaryAt(w, GPSDictionary).Some? then ParseGPSCoordinate(DictionaryAt(w, GPSDictionary).value) else None)
         == GetCoordinate(m)
      && (if DictionaryAt(w, GPSDictionary).Some? then NumberAt(DictionaryAt(w, GPSDictionary).value, GPSAltitude) else None)
         == (if GetCoordinate(m).Some? && m.altitude.Some? then Some(Abs(m.altitude.value)) else None)
  {
    var w := WriteProperties(existing, m, formatDate);
    match GetCoordinate(m) {
      case Some(c) =>
        GPSRoundTrip(c, m.altitude);
        var gps := GPSDictionaryFor(c, m.altitude);
        assert DictionaryAt(w, GPSDictionary) == Some(gps);
      case None =>
        assert DictionaryAt(w, GPSDictionary).None?;
    }
  }

  /** What reading back a written dictionary yields: keywords and coordinate
      as written, each date the record had, and the altitude's magnitude
      when a coordinate carries it. */
  lemma WriteThenRead(existing: Properties, m: ExifMetadata,
                      formatDate: Date -> string, parseDate: string -> Option<Date>)
    requires forall d :: parseDate(formatDate(d)) == Some(d)
    ensures var r := ExtractMetadata(WriteProperties(existing, m, formatDate), parseDate);
      && r.keywords == m.keywords
      && GetCoordinate(r) == GetCoordinate(m)
      && (m.dateTimeOriginal.Some? ==> r.dateTimeOriginal == m.dateTimeOriginal)
      && (m.dateTimeDigitized.Some? ==> r.dateTimeDigitized == m.dateTimeDigitized)
      && (m.dateTime.Some? ==> r.dateTime == m.dateTime)
      && (m.dateTime.None? && m.dateTimeOriginal.Some? ==> r.dateTime == m.dateTimeOriginal)
      && r.altitude == (if GetCoordinate(m).Some? && m.altitude.Some? then Some(Abs(m.altitude.value)) else None)
  {
    KeywordsRoundTrip(existing, m, formatDate);
    DatesRoundTrip(existing, m, formatDate, parseDate);
    LocationRoundTrip(existing, m, formatDate);
  }

  /** A record written with both dates, matching latitude and longitude, and
      an altitude that is absent or not below sea level (and carried by a
      coordinate) reads back equal under the change-tracking `==`. */
  lemma WriteThenReadIsUnchanged(existing: Properties, m: ExifMetadata,
                                 formatDate: Date -> string, parseDate: string -> Option<Date>)
    requires forall d :: parseDate(formatDate(d)) == Some(d)
    requires m.dateTimeOriginal.Some? && m.dateTimeDigitized.Some?
    requires m.latitude.Some? <==> m.longitude.Some?
    requires m.altitude.Some? ==> m.latitude.Some? && m.altitude.value >= 0.0
    ensures ChangeEq(ExtractMetadata(WriteProperties(existing, m, formatDate), parseDate), m)
  {
    WriteThenRead(existing, m, formatDate, parseDate);
  }

  /** A negative altitude does not survive: the writer stores its magnitude
      with reference 1, and the reader takes the magnitude and ignores the
      reference. */
  lemma NegativeAltitudeComesBackPositive(existing: Properties, m: ExifMetadata,
                                          formatDate: Date -> string, parseDate: string -> Option<Date>)
    requires forall d :: parseDate(formatDate(d)) == Some(d)
    requires GetCoordinate(m).Some? && m.altitude.Some? && m.altitude.value < 0.0
    ensures ExtractMetadata(WriteProperties(existing, m, formatDate), parseDate).altitude == Some(-m.altitude.value)
    ensures !ChangeEq(ExtractMetadata(WriteProperties(existing, m, formatDate), parseDate), m)
  {
    WriteThenRead(existing, m, formatDate, parseDate);
  }
}
