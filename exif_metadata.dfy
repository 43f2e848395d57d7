/** The editable metadata record of one photo (`ExifMetadata`): optional dates,
    GPS position and keywords, plus read-only descriptive fields. Its equality
    is the change-tracking equality that decides whether a photo is dirty. */
module Metadata {
  import opened Wrappers
  import Text
  import ImageProperties

  /** An instant in time; only its identity matters to the core. */
  datatype Date = Date(sinceReferenceDate: real)

  /** `CLLocationCoordinate2D` */
  datatype Coordinate = Coordinate(latitude: real, longitude: real)

  /** `ExifMetadata()` builds the record with every optional field absent and
      no keywords, as Swift's memberwise initializer does. */
  datatype ExifMetadata = ExifMetadata(
    // dates (the primary editing targets)
    dateTimeOriginal: Option<Date> := None,
    dateTimeDigitized: Option<Date> := None,
    dateTime: Option<Date> := None,
    // GPS
    latitude: Option<real> := None,
    longitude: Option<real> := None,
    altitude: Option<real> := None,
    // IPTC keywords
    keywords: seq<string> := [],
    // camera information, display only
    cameraMake: Option<string> := None,
    cameraModel: Option<string> := None,
    lensMake: Option<string> := None,
    lensModel: Option<string> := None,
    focalLength: Option<real> := None,
    fNumber: Option<real> := None,
    isoSpeed: Option<int> := None,
    exposureTime: Option<real> := None,
    flash: Option<bool> := None,
    software: Option<string> := None,
    artist: Option<string> := None,
    copyright: Option<string> := None,
    // image dimensions
    pixelWidth: Option<int> := None,
    pixelHeight: Option<int> := None,
    orientation: Option<int> := None,
    // the raw property dictionary, for the inspector
    allProperties: Option<ImageProperties.Properties> := None
  )

  /** The six fields that change tracking looks at. */
  datatype TrackedFields = TrackedFields(
    dateTimeOriginal: Option<Date>,
    dateTimeDigitized: Option<Date>,
    latitude: Option<real>,
    longitude: Option<real>,
    altitude: Option<real>,
    keywords: seq<string>)

  function Tracked(m: ExifMetadata): TrackedFields {
    TrackedFields(m.dateTimeOriginal, m.dateTimeDigitized, m.latitude, m.longitude, m.altitude, m.keywords)
  }

  /** The custom `==` of `ExifMetadata`: two records are equal when they agree
      on the change-tracked fields, whatever their other fields hold. */
  predicate ChangeEq(a: ExifMetadata, b: ExifMetadata)
    ensures ChangeEq(a, b) <==> Tracked(a) == Tracked(b)
  {
    && a.dateTimeOriginal == b.dateTimeOriginal
    && a.dateTimeDigitized == b.dateTimeDigitized
    && a.latitude == b.latitude
    && a.longitude == b.longitude
    && a.altitude == b.altitude
    && a.keywords == b.keywords
  }

  /** `==` is an equivalence relation. */
  lemma ChangeEqIsEquivalence(a: ExifMetadata, b: ExifMetadata, c: ExifMetadata)
    ensures ChangeEq(a, a)
    ensures ChangeEq(a, b) ==> ChangeEq(b, a)
    ensures ChangeEq(a, b) && ChangeEq(b, c) ==> ChangeEq(a, c)
  {
  }

  /** Records that differ only in the file date, the camera and exposure
      fields, the dimensions or the raw dictionary compare equal. */
  lemma UntrackedFieldsIgnored(a: ExifMetadata, b: ExifMetadata)
    requires b == a.(dateTime := b.dateTime, cameraMake := b.cameraMake, cameraModel := b.cameraModel,
                     lensMake := b.lensMake, lensModel := b.lensModel, focalLength := b.focalLength,
                     fNumber := b.fNumber, isoSpeed := b.isoSpeed, exposureTime := b.exposureTime,
                     flash := b.flash, software := b.software, artist := b.artist, copyright := b.copyright,
                     pixelWidth := b.pixelWidth, pixelHeight := b.pixelHeight, orientation := b.orientation,
                     allProperties := b.allProperties)
    ensures ChangeEq(a, b)
  {
  }

  /** Keywords are compared as ordered lists: the same keywords in another
      order make the records unequal. */
  lemma KeywordOrderMatters()
    ensures !ChangeEq(ExifMetadata(keywords := ["a", "b"]), ExifMetadata(keywords := ["b", "a"]))
  {
    assert ExifMetadata(keywords := ["a", "b"]).keywords[0] != ExifMetadata(keywords := ["b", "a"]).keywords[0];
  }

  /** A default record has no keywords and every optional field absent. */
  lemma DefaultIsEmpty()
    ensures var m := ExifMetadata();
      && m.keywords == []
      && m.dateTimeOriginal.None? && m.dateTimeDigitized.None? && m.dateTime.None?
      && m.latitude.None? && m.longitude.None? && m.altitude.None?
      && m.cameraMake.None? && m.cameraModel.None? && m.lensMake.None? && m.lensModel.None?
      && m.focalLength.None? && m.fNumber.None? && m.isoSpeed.None? && m.exposureTime.None?
      && m.flash.None? && m.software.None? && m.artist.None? && m.copyright.None?
      && m.pixelWidth.None? && m.pixelHeight.None? && m.orientation.None? && m.allProperties.None?
  {
  }

  // ---------------------------------------------------------------------------
  // coordinate: a view over latitude and longitude
  // ---------------------------------------------------------------------------

  /** The getter of `coordinate`. */
  function GetCoordinate(m: ExifMetadata): (c: Option<Coordinate>)
    ensures c.Some? <==> m.latitude.Some? && m.longitude.Some?
    ensures c.Some? ==> c.value.latitude == m.latitude.value && c.value.longitude == m.longitude.value
  {
    if m.latitude.Some? && m.longitude.Some? then Some(Coordinate(m.latitude.value, m.longitude.value)) else None
  }

  /** The setter of `coordinate`: reading back gives what was set, and only
      latitude and longitude change (altitude in particular is kept). */
  function SetCoordinate(m: ExifMetadata, c: Option<Coordinate>): (r: ExifMetadata)
    ensures GetCoordinate(r) == c
    ensures c.None? ==> r.latitude.None? && r.longitude.None?
    ensures r.(latitude := m.latitude, longitude := m.longitude) == m
  {
    match c
    case Some(v) => m.(latitude := Some(v.latitude), longitude := Some(v.longitude))
    case None => m.(latitude := None, longitude := None)
  }

  /** Setting the coordinate a record already shows changes nothing, provided
      latitude and longitude are both present or both absent. */
  lemma SetOwnCoordinate(m: ExifMetadata)
    requires m.latitude.Some? <==> m.longitude.Some?
    ensures SetCoordinate(m, GetCoordinate(m)) == m
  {
  }

  // ---------------------------------------------------------------------------
  // Display strings
  // ---------------------------------------------------------------------------

  /** `dimensionsString`: "w × h" when both dimensions are known. */
  function DimensionsString(m: ExifMetadata): (r: Option<string>)
    ensures r.Some? <==> m.pixelWidth.Some? && m.pixelHeight.Some?
    ensures r.Some? ==> Text.IntToString(m.pixelWidth.value) <= r.value
    ensures r.Some? ==> |r.value| >= |Text.IntToString(m.pixelHeight.value)|
    ensures r.Some? ==> r.value[|r.value| - |Text.IntToString(m.pixelHeight.value)|..] == Text.IntToString(m.pixelHeight.value)
  {
    if m.pixelWidth.Some? && m.pixelHeight.Some? then
      Some(Text.IntToString(m.pixelWidth.value) + " × " + Text.IntToString(m.pixelHeight.value))
    else None
  }

  /** Different sizes are displayed differently: the digits hold no space,
      so the separator is found where the width ends. */
  lemma DimensionsStringInjective(a: ExifMetadata, b: ExifMetadata)
    requires DimensionsString(a).Some? && DimensionsString(a) == DimensionsString(b)
    ensures a.pixelWidth == b.pixelWidth && a.pixelHeight == b.pixelHeight
  {
    var wa, ha := Text.IntToString(a.pixelWidth.value), Text.IntToString(a.pixelHeight.value);
    var wb, hb := Text.IntToString(b.pixelWidth.value), Text.IntToString(b.pixelHeight.value);
    var s := DimensionsString(a).value;
    assert s == wa + " × " + ha && s == wb + " × " + hb;
    assert forall k :: 0 <= k < |wa| ==> s[k] == wa[k] && s[k] != ' ';
    assert forall k :: 0 <= k < |wb| ==> s[k] == wb[k] && s[k] != ' ';
    assert s[|wa|] == ' ' && s[|wb|] == ' ';
    assert wa == s[..|wa|] == wb;
    assert ha == s[|wa| + 3..] == hb;
    Text.IntToStringInjective(a.pixelWidth.value, b.pixelWidth.value);
    Text.IntToStringInjective(a.pixelHeight.value, b.pixelHeight.value);
  }

  /** `formattedISO`: "ISO n" when the ISO speed is known. */
  function FormattedISO(m: ExifMetadata): (r: Option<string>)
    ensures r.Some? <==> m.isoSpeed.Some?
    ensures r.Some? ==> |r.value| > 4 && r.value[..4] == "ISO "
  {
    if m.isoSpeed.Some? then Some("ISO " + Text.IntToString(m.isoSpeed.value)) else None
  }

  /** Different ISO speeds are displayed differently. */
  lemma FormattedISOInjective(a: ExifMetadata, b: ExifMetadata)
    requires a.isoSpeed.Some? && b.isoSpeed.Some?
    requires FormattedISO(a) == FormattedISO(b)
    ensures a.isoSpeed == b.isoSpeed
  {
    var sa, sb := FormattedISO(a).value, FormattedISO(b).value;
    assert sa[4..] == Text.IntToString(a.isoSpeed.value);
    assert sb[4..] == Text.IntToString(b.isoSpeed.value);
    Text.IntToStringInjective(a.isoSpeed.value, b.isoSpeed.value);
  }
}
