/** One photo in the library (`PhotoItem`) with its original and pending
    metadata snapshots and the dirty flag derived from them, and the table of
    supported image formats (`ImageFormat`). */
module Photos {
  import opened Wrappers
  import opened Metadata
  import Text

  /** A file URL, reduced to what the core looks at. */
  datatype Url = Url(directory: string, lastPathComponent: string)

  /** Position of the last '.' in a file name, if any. */
  function LastDot(name: string): (r: Option<nat>)
    ensures r.Some? ==> r.value < |name| && name[r.value] == '.'
    ensures r.Some? ==> forall k :: r.value < k < |name| ==> name[k] != '.'
    ensures r.None? ==> forall k :: 0 <= k < |name| ==> name[k] != '.'
  {
    if name == [] then None
    else if name[|name| - 1] == '.' then Some(|name| - 1)
    else LastDot(name[..|name| - 1])
  }

  /** `url.pathExtension`: what follows the last '.' of the file name, or
      the empty string when there is none. A dot that starts the name (".jpg")
      marks a hidden file, not an extension. */
  function PathExtension(name: string): (r: string)
    ensures |r| <= |name| && r == name[|name| - |r|..]
    ensures forall k :: 0 <= k < |r| ==> r[k] != '.'
    ensures r != "" ==> |r| + 1 < |name| && name[|name| - |r| - 1] == '.'
    ensures (exists k :: 0 < k < |name| - 1 && name[k] == '.') && name[|name| - 1] != '.' ==> r != ""
  {
    match LastDot(name)
    case None => ""
    case Some(i) => if i == 0 then "" else name[i + 1..]
  }

  // ---------------------------------------------------------------------------
  // Dirty tracking
  // ---------------------------------------------------------------------------

  /** The rule `updateHasChanges` applies: no pending snapshot means no
      change; a pending snapshot without an original is a change; otherwise
      the two are compared with the change-tracking `==`. */
  function Dirty(original: Option<ExifMetadata>, pending: Option<ExifMetadata>): (r: bool)
    ensures r <==> pending.Some? && (original.None? || Tracked(pending.value) != Tracked(original.value))
  {
    match pending
    case None => false
    case Some(p) =>
      match original
      case None => true
      case Some(o) => !ChangeEq(p, o)
  }

  /** A photo whose pending snapshot equals its original is clean. */
  lemma SameSnapshotsAreClean(s: Option<ExifMetadata>)
    ensures !Dirty(s, s)
  {
  }

  class PhotoItem {
    const id: nat
    const url: Url

    var isLoading: bool
    var error: Option<string>
    var hasChanges: bool
    var originalMetadata: Option<ExifMetadata>
    var pendingMetadata: Option<ExifMetadata>

    /** The derived flag is never stale. */
    ghost predicate Valid()
      reads this`hasChanges, this`originalMetadata, this`pendingMetadata
    {
      hasChanges == Dirty(originalMetadata, pendingMetadata)
    }

    /** `PhotoItem(url:)`: no snapshots yet, loading, and clean. */
    constructor (id: nat, url: Url)
      ensures this.id == id && this.url == url
      ensures originalMetadata.None? && pendingMetadata.None?
      ensures !hasChanges && isLoading && error.None?
      ensures Valid()
    {
      this.id := id;
      this.url := url;
      isLoading := true;
      error := None;
      hasChanges := false;
      originalMetadata := None;
      pendingMetadata := None;
    }

    /** `updateHasChanges()`, run by the `didSet` of both snapshots. */
    method UpdateHasChanges()
      modifies this`hasChanges
      ensures Valid()
    {
      match pendingMetadata {
        case None =>
          hasChanges := false;
        case Some(pending) =>
          match originalMetadata {
            case None =>
              hasChanges := true;
            case Some(original) =>
              hasChanges := !ChangeEq(pending, original);
          }
      }
    }

    /** Assigning `originalMetadata`. */
    method SetOriginal(m: Option<ExifMetadata>)
      modifies this
      ensures Valid()
      ensures originalMetadata == m && pendingMetadata == old(pendingMetadata)
      ensures isLoading == old(isLoading) && error == old(error)
    {
      originalMetadata := m;
      UpdateHasChanges();
    }

    /** Assigning `pendingMetadata`. */
    method SetPending(m: Option<ExifMetadata>)
      modifies this
      ensures Valid()
      ensures pendingMetadata == m && originalMetadata == old(originalMetadata)
      ensures isLoading == old(isLoading) && error == old(error)
    {
      pendingMetadata := m;
      UpdateHasChanges();
    }

    /** `resetChanges()`: discard the staged edits; the photo is clean. */
    method ResetChanges()
      modifies this
      ensures Valid() && !hasChanges
      ensures pendingMetadata == old(originalMetadata) && originalMetadata == old(originalMetadata)
      ensures isLoading == old(isLoading) && error == old(error)
    {
      SetPending(originalMetadata);
    }

    /** `filename` */
    function Filename(): string {
      url.lastPathComponent
    }

    /** `fileExtension`: the lower-cased path extension. */
    function FileExtension(): (r: string)
      ensures forall k :: 0 <= k < |r| ==> !Text.IsUpper(r[k])
    {
      Text.Lower(PathExtension(url.lastPathComponent))
    }

    /** `supportsExif`: false when the extension names no format. */
    function SupportsExif(): (r: bool)
      ensures r <==> ImageFormat.From(FileExtension()).Some? && FileExtension() != "png"
    {
      match ImageFormat.From(FileExtension())
      case Some(f) => f.SupportsExif()
      case None => false
    }
  }

  // ---------------------------------------------------------------------------
  // Supported formats
  // ---------------------------------------------------------------------------

  datatype ImageFormat = Jpeg | Heic | Heif | Png | Tiff | Tif {

    function RawValue(): string {
      match this
      case Jpeg => "jpeg"
      case Heic => "heic"
      case Heif => "heif"
      case Png => "png"
      case Tiff => "tiff"
      case Tif => "tif"
    }

    /** PNG is listed for display but carries no editable metadata. */
    predicate SupportsExif()
      ensures SupportsExif() <==> this != Png
    {
      match this
      case Jpeg | Heic | Heif | Tiff | Tif => true
      case Png => false
    }

    /** `ImageFormat.allCases`, in declaration order. */
    static const AllCases: seq<ImageFormat> := [Jpeg, Heic, Heif, Png, Tiff, Tif]

    /** `ImageFormat.from(extension:)`: case-insensitive; "jpg" is an alias
        of jpeg; otherwise the first case whose raw value matches. */
    static function From(ext: string): (r: Option<ImageFormat>)
      ensures r.Some? <==> Text.Lower(ext) in SupportedExtensions()
      ensures r.Some? && Text.Lower(ext) != "jpg" ==> r.value.RawValue() == Text.Lower(ext)
      ensures Text.Lower(ext) == "jpg" ==> r == Some(Jpeg)
    {
      var lower := Text.Lower(ext);
      if lower == "jpg" then Some(Jpeg) else FirstWithRawValue(AllCases, lower)
    }

    /** `allCases.first { $0.rawValue == s }` over a list of cases. */
    static function FirstWithRawValue(cases: seq<ImageFormat>, s: string): (r: Option<ImageFormat>)
      ensures r.Some? <==> exists k :: 0 <= k < |cases| && cases[k].RawValue() == s
      ensures r.Some? ==> r.value in cases && r.value.RawValue() == s
    {
      if cases == [] then None
      else if cases[0].RawValue() == s then Some(cases[0])
      else FirstWithRawValue(cases[1..], s)
    }

    /** `supportedExtensions`: every raw value, then the "jpg" alias. */
    static function SupportedExtensions(): (r: seq<string>)
      ensures |r| == |AllCases| + 1
      ensures forall k :: 0 <= k < |AllCases| ==> r[k] == AllCases[k].RawValue()
      ensures r[|AllCases|] == "jpg"
    {
      seq(|AllCases|, k requires 0 <= k < |AllCases| => AllCases[k].RawValue()) + ["jpg"]
    }
  }

  /** `FirstWithRawValue` returns the case at the first position whose raw
      value matches. */
  lemma {:induction false} FirstWithRawValueAt(cases: seq<ImageFormat>, s: string, k: nat)
    requires k < |cases| && cases[k].RawValue() == s
    requires forall j :: 0 <= j < k ==> cases[j].RawValue() != s
    ensures ImageFormat.FirstWithRawValue(cases, s) == Some(cases[k])
  {
    if k > 0 {
      FirstWithRawValueAt(cases[1..], s, k - 1);
    }
  }

  /** Position of a format in `ImageFormat.AllCases`. */
  function Position(f: ImageFormat): (k: nat)
    ensures k < |ImageFormat.AllCases| && ImageFormat.AllCases[k] == f
  {
    match f
    case Jpeg => 0
    case Heic => 1
    case Heif => 2
    case Png => 3
    case Tiff => 4
    case Tif => 5
  }

  /** Every format is found again from its own raw value. */
  lemma FromRawValue(f: ImageFormat)
    ensures ImageFormat.From(f.RawValue()) == Some(f)
  {
    Text.LowerOfLower(f.RawValue());
    FirstWithRawValueAt(ImageFormat.AllCases, f.RawValue(), Position(f));
  }

  /** `from` ignores letter case. */
  lemma FromIgnoresCase(ext: string)
    ensures ImageFormat.From(ext) == ImageFormat.From(Text.Lower(ext))
  {
    Text.LowerIdempotent(ext);
  }

  /** Every listed extension is recognised by `from`. */
  lemma SupportedExtensionsAreRecognised(ext: string)
    requires ext in ImageFormat.SupportedExtensions()
    ensures ImageFormat.From(ext).Some?
  {
    var k :| 0 <= k < |ImageFormat.SupportedExtensions()| && ImageFormat.SupportedExtensions()[k] == ext;
    if k < |ImageFormat.AllCases| {
      FromRawValue(ImageFormat.AllCases[k]);
    } else {
      Text.LowerOfLower(ext);
    }
  }
}
