/** The image property dictionary that ImageIO hands out and takes back
    (`[String: Any]`), with the keys the metadata core reads and writes.
    Values are modelled by the few shapes the core casts them to. */
module ImageProperties {
  import opened Wrappers

  datatype Value =
    | Text(text: string)                     // `as? String`
    | Number(number: real)                   // an NSNumber holding a floating-point value
    | Integer(integer: int)                  // an NSNumber holding an integer
    | Texts(texts: seq<string>)              // `as? [String]`
    | Integers(integers: seq<int>)           // `as? [Int]`
    | Dictionary(entries: map<string, Value>) // `as? [String: Any]`
    | Other                                  // anything the core never casts

  type Properties = map<string, Value>

  // Top-level keys (kCGImageProperty…)
  const ExifDictionary := "{Exif}"
  const TIFFDictionary := "{TIFF}"
  const GPSDictionary := "{GPS}"
  const IPTCDictionary := "{IPTC}"
  const PixelWidth := "PixelWidth"
  const PixelHeight := "PixelHeight"

  // Keys inside the Exif dictionary (kCGImagePropertyExif…)
  const ExifDateTimeOriginal := "DateTimeOriginal"
  const ExifDateTimeDigitized := "DateTimeDigitized"
  const ExifFNumber := "FNumber"
  const ExifISOSpeedRatings := "ISOSpeedRatings"
  const ExifExposureTime := "ExposureTime"
  const ExifFocalLength := "FocalLength"
  const ExifFlash := "Flash"
  const ExifLensMake := "LensMake"
  const ExifLensModel := "LensModel"

  // Keys inside the TIFF dictionary (kCGImagePropertyTIFF…)
  const TIFFDateTime := "DateTime"
  const TIFFMake := "Make"
  const TIFFModel := "Model"
  const TIFFSoftware := "Software"
  const TIFFArtist := "Artist"
  const TIFFCopyright := "Copyright"
  const TIFFOrientation := "Orientation"

  // Keys inside the GPS dictionary (kCGImagePropertyGPS…)
  const GPSLatitude := "Latitude"
  const GPSLatitudeRef := "LatitudeRef"
  const GPSLongitude := "Longitude"
  const GPSLongitudeRef := "LongitudeRef"
  const GPSAltitude := "Altitude"
  const GPSAltitudeRef := "AltitudeRef"
  const GPSVersion := "GPSVersion"

  // Keys inside the IPTC dictionary (kCGImagePropertyIPTC…)
  const IPTCKeywords := "Keywords"

  /** `d[key] as? [String: Any]` */
  function DictionaryAt(d: Properties, key: string): Option<Properties> {
    if key in d && d[key].Dictionary? then Some(d[key].entries) else None
  }

  /** `d[key] as? [String: Any] ?? [:]` */
  function DictionaryOrEmpty(d: Properties, key: string): Properties {
    DictionaryAt(d, key).GetOr(map[])
  }

  /** `d[key] as? String` */
  function TextAt(d: Properties, key: string): Option<string> {
    if key in d && d[key].Text? then Some(d[key].text) else None
  }

  /** `d[key] as? Double`: every NSNumber bridges to a `Double`. */
  function NumberAt(d: Properties, key: string): (r: Option<real>)
    ensures r.Some? <==> key in d && (d[key].Number? || d[key].Integer?)
    ensures key in d && d[key].Integer? ==> r == Some(d[key].integer as real)
  {
    if key in d && d[key].Number? then Some(d[key].number)
    else if key in d && d[key].Integer? then Some(d[key].integer as real)
    else None
  }

  /** `d[key] as? Int`: an NSNumber bridges to an `Int` only when its value
      is a whole number. */
  function IntegerAt(d: Properties, key: string): (r: Option<int>)
    ensures r.Some? <==> key in d && (d[key].Integer? || (d[key].Number? && d[key].number == d[key].number.Floor as real))
    ensures r.Some? ==> key in d && r.value as real == (if d[key].Integer? then d[key].integer as real else d[key].number)
  {
    if key in d && d[key].Integer? then Some(d[key].integer)
    else if key in d && d[key].Number? && d[key].number == d[key].number.Floor as real then Some(d[key].number.Floor)
    else None
  }

  /** `d[key] as? [String]` */
  function TextsAt(d: Properties, key: string): Option<seq<string>> {
    if key in d && d[key].Texts? then Some(d[key].texts) else None
  }

  /** `(d[key] as? [Int])?.first` */
  function FirstIntegerAt(d: Properties, key: string): Option<int> {
    if key in d && d[key].Integers? && d[key].integers != [] then Some(d[key].integers[0]) else None
  }

  /** The entry stored under `key`, if any. */
  function Lookup(d: Properties, key: string): Option<Value> {
    if key in d then Some(d[key]) else None
  }

  /** `a` and `b` hold the same entries under every key outside `keys`. */
  ghost predicate AgreeExcept(a: Properties, b: Properties, keys: set<string>) {
    forall k :: k !in keys ==> Lookup(a, k) == Lookup(b, k)
  }
}
