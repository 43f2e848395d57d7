/** The batch-edit coordinator (`PhotoLibraryViewModel`): the photo list,
    the selection, the staged edits applied to every selected photo, and the
    sequential save loop. */
module Library {
  import opened Wrappers
  import opened Metadata
  import opened Photos
  import opened Collections
  import ExifService
  import Text

  // ---------------------------------------------------------------------------
  // Views over a photo list
  // ---------------------------------------------------------------------------

  /** The ids of a photo list (`Set(photos.map { $0.id })`). */
  function Ids(ps: seq<PhotoItem>): (r: set<nat>)
    ensures forall k :: 0 <= k < |ps| ==> ps[k].id in r
  {
    if ps == [] then {} else Ids(ps[..|ps| - 1]) + {ps[|ps| - 1].id}
  }

  /** The urls of a photo list, in order. */
  function Urls(ps: seq<PhotoItem>): (r: seq<Url>)
    ensures |r| == |ps| && forall k :: 0 <= k < |ps| ==> r[k] == ps[k].url
  {
    if ps == [] then [] else Urls(ps[..|ps| - 1]) + [ps[|ps| - 1].url]
  }

  /** A list that agrees with `start` on its first `|start|` entries
      begins with `start`. */
  lemma PrefixIs(ps: seq<PhotoItem>, start: seq<PhotoItem>)
    requires |ps| >= |start| && forall k :: 0 <= k < |start| ==> ps[k] == start[k]
    ensures ps[..|start|] == start
  {
  }

  /** The urls of a list that is `start` followed by photos with the urls
      `more`. */
  lemma UrlsSplit(ps: seq<PhotoItem>, start: seq<PhotoItem>, more: seq<Url>)
    requires |ps| == |start| + |more|
    requires forall k :: 0 <= k < |start| ==> ps[k] == start[k]
    requires forall k :: |start| <= k < |ps| ==> ps[k].url == more[k - |start|]
    ensures Urls(ps) == Urls(start) + more
  {
  }

  /** No two entries of the list carry the same id. */
  predicate DistinctIds(ps: seq<PhotoItem>) {
    forall i, j :: 0 <= i < j < |ps| ==> ps[i].id != ps[j].id
  }

  /** Distinct ids, all below the next id to issue, and distinct URLs. */
  predicate WellFormed(ps: seq<PhotoItem>, nextId: nat) {
    && DistinctIds(ps)
    && Distinct(Urls(ps))
    && (forall k :: 0 <= k < |ps| ==> ps[k].id < nextId)
  }

  /** Every photo's dirty flag is current. */
  ghost predicate AllValid(ps: seq<PhotoItem>)
    reads ps
  {
    forall k :: 0 <= k < |ps| ==> ps[k].Valid()
  }

  /** `ks` lists the elements of `s`, each once. */
  ghost predicate ListsExactly(ks: seq<string>, s: set<string>) {
    Distinct(ks) && forall w :: w in ks <==> w in s
  }

  /** A photo just created: loading, no snapshots, no error. */
  ghost predicate Loading(p: PhotoItem)
    reads p
  {
    p.isLoading && p.error.None? && p.originalMetadata.None? && p.pendingMetadata.None? && !p.hasChanges
  }

  /** Appending a photo adds its id. */
  lemma IdsGrow(ps: seq<PhotoItem>, p: PhotoItem)
    ensures Ids(ps + [p]) == Ids(ps) + {p.id}
  {
    assert (ps + [p])[..|ps|] == ps;
  }

  /** Appending a valid photo to valid photos keeps them all valid. */
  lemma AppendKeepsAllValid(ps: seq<PhotoItem>, p: PhotoItem)
    requires AllValid(ps) && p.Valid()
    ensures AllValid(ps + [p])
  {
    assert forall k :: 0 <= k < |ps| ==> (ps + [p])[k] == ps[k];
  }

  /** `photos.filter { $0.hasChanges }` */
  function WithChanges(ps: seq<PhotoItem>): (r: seq<PhotoItem>)
    reads ps
    ensures forall k :: 0 <= k < |r| ==> r[k] in ps && r[k].hasChanges
    ensures forall k :: 0 <= k < |ps| && ps[k].hasChanges ==> ps[k] in r
    ensures IsSubsequence(r, ps)
    ensures DistinctIds(ps) ==> DistinctIds(r)
  {
    if ps == [] then []
    else
      var rest := WithChanges(ps[1..]);
      if ps[0].hasChanges then
        assert forall k :: 0 <= k < |rest| ==> rest[k] in ps[1..];
        [ps[0]] + rest
      else
        SubsequenceOfTail(rest, ps);
        rest
  }

  /** The URL filter of `addPhotos`: the lower-cased path extension must be
      one of the supported extensions. */
  predicate HasSupportedExtension(u: Url) {
    Text.Lower(PathExtension(u.lastPathComponent)) in ImageFormat.SupportedExtensions()
  }

  /** `urls.filter { supportedExtensions.contains($0.pathExtension.lowercased()) }` */
  function SupportedOnly(urls: seq<Url>): seq<Url> {
    if urls == [] then []
    else
      var rest := SupportedOnly(urls[1..]);
      if HasSupportedExtension(urls[0]) then [urls[0]] + rest else rest
  }

  /** The filter of `addPhotos` is the generic filter with the extension
      test. */
  lemma {:induction false} SupportedOnlyIsFilter(urls: seq<Url>)
    ensures SupportedOnly(urls) == Filter(urls, HasSupportedExtension)
  {
    if urls != [] {
      SupportedOnlyIsFilter(urls[1..]);
    }
  }

  /** What the filter keeps: the URLs with a supported extension, in their
      original order. */
  lemma SupportedOnlyContents(urls: seq<Url>, u: Url)
    ensures u in SupportedOnly(urls) <==> u in urls && HasSupportedExtension(u)
    ensures IsSubsequence(SupportedOnly(urls), urls)
  {
    SupportedOnlyIsFilter(urls);
    FilterMembers(urls, HasSupportedExtension, u);
  }

  /** A URL passes the filter exactly when its extension names a format. */
  lemma SupportedExtensionMeansKnownFormat(u: Url)
    ensures HasSupportedExtension(u) <==> ImageFormat.From(PathExtension(u.lastPathComponent)).Some?
  {
  }

  /** The URLs the loop of `addPhotos` appends, in order: each candidate not
      already among `existing` nor appended before it. */
  function NewUrls(existing: seq<Url>, candidates: seq<Url>): seq<Url>
    decreases |candidates|
  {
    if candidates == [] then []
    else
      var before := NewUrls(existing, candidates[..|candidates| - 1]);
      var u := candidates[|candidates| - 1];
      if u in existing || u in before then before else before + [u]
  }

  /** What `NewUrls` holds: exactly the candidates that are not already
      present, each once. */
  lemma {:induction false} NewUrlsContents(existing: seq<Url>, candidates: seq<Url>)
    ensures forall u :: u in NewUrls(existing, candidates) <==> u in candidates && u !in existing
    ensures Distinct(NewUrls(existing, candidates))
    ensures |NewUrls(existing, candidates)| <= |candidates|
    decreases |candidates|
  {
    if candidates != [] {
      var init := candidates[..|candidates| - 1];
      NewUrlsContents(existing, init);
      assert candidates == init + [candidates[|candidates| - 1]];
    }
  }

  /** One more candidate: it is appended unless it is already present. */
  lemma NewUrlsStep(existing: seq<Url>, candidates: seq<Url>, u: Url)
    ensures NewUrls(existing, candidates + [u]) ==
      if u in existing + NewUrls(existing, candidates) then NewUrls(existing, candidates)
      else NewUrls(existing, candidates) + [u]
  {
    assert (candidates + [u])[..|candidates|] == candidates;
  }

  /** Adding to a list of distinct URLs keeps it distinct. */
  lemma NewUrlsKeepDistinct(existing: seq<Url>, candidates: seq<Url>)
    requires Distinct(existing)
    ensures Distinct(existing + NewUrls(existing, candidates))
  {
    NewUrlsContents(existing, candidates);
    var all := existing + NewUrls(existing, candidates);
    forall i, j | 0 <= i < j < |all|
      ensures all[i] != all[j]
    {
      if j >= |existing| && i < |existing| {
        assert all[j] in NewUrls(existing, candidates);
      }
    }
  }

  // ---------------------------------------------------------------------------
  // Staged edits
  // ---------------------------------------------------------------------------

  /** The date edit: all three dates take the editing date. */
  function StampDate(m: ExifMetadata, d: Date): (r: ExifMetadata)
    ensures r.dateTimeOriginal == Some(d) && r.dateTimeDigitized == Some(d) && r.dateTime == Some(d)
    ensures r.(dateTimeOriginal := m.dateTimeOriginal, dateTimeDigitized := m.dateTimeDigitized, dateTime := m.dateTime) == m
  {
    m.(dateTimeOriginal := Some(d), dateTimeDigitized := Some(d), dateTime := Some(d))
  }

  /** The location edit: `metadata.coordinate = editingCoordinate`. */
  function StampLocation(m: ExifMetadata, c: Option<Coordinate>): (r: ExifMetadata)
    ensures GetCoordinate(r) == c && r.altitude == m.altitude
    ensures c.None? ==> r.latitude.None? && r.longitude.None?
    ensures r.(latitude := m.latitude, longitude := m.longitude) == m
  {
    SetCoordinate(m, c)
  }

  /** The location removal: coordinate and altitude are both cleared. */
  function StripLocation(m: ExifMetadata): (r: ExifMetadata)
    ensures r.latitude.None? && r.longitude.None? && r.altitude.None?
    ensures r.(latitude := m.latitude, longitude := m.longitude, altitude := m.altitude) == m
  {
    SetCoordinate(m, None).(altitude := None)
  }

  /** The keyword edit: the list is overwritten, not merged. */
  function StampKeywords(m: ExifMetadata, keywords: seq<string>): (r: ExifMetadata)
    ensures r.keywords == keywords
    ensures r.(keywords := m.keywords) == m
  {
    m.(keywords := keywords)
  }

  /** One staged edit, as the loops of the `apply…ToSelected` methods run it. */
  datatype Edit =
    | SetDate(date: Date)
    | SetLocation(coordinate: Option<Coordinate>)
    | RemoveLocation
    | SetKeywords(keywords: seq<string>)

  /** `var metadata = photo.pendingMetadata ?? ExifMetadata()`, then the edit. */
  function Applied(e: Edit, pending: Option<ExifMetadata>): ExifMetadata {
    var m := pending.GetOr(ExifMetadata());
    match e
    case SetDate(d) => StampDate(m, d)
    case SetLocation(c) => StampLocation(m, c)
    case RemoveLocation => StripLocation(m)
    case SetKeywords(ks) => StampKeywords(m, ks)
  }

  /** Stamping a date the original does not carry makes the photo dirty. */
  lemma StampedDateIsAChange(original: ExifMetadata, pending: Option<ExifMetadata>, d: Date)
    requires original.dateTimeOriginal != Some(d)
    ensures Dirty(Some(original), Some(Applied(SetDate(d), pending)))
  {
  }

  /** Stamping only the file date of a record is never a change. */
  lemma FileDateAloneIsNoChange(m: ExifMetadata, d: Date)
    ensures !Dirty(Some(m), Some(m.(dateTime := Some(d))))
  {
  }

  /** Re-applying an edit changes nothing more. */
  lemma ApplyIsIdempotent(e: Edit, pending: Option<ExifMetadata>)
    ensures Applied(e, Some(Applied(e, pending))) == Applied(e, pending)
  {
  }

  // ---------------------------------------------------------------------------
  // Save
  // ---------------------------------------------------------------------------

  /** The text shown when a write is refused for lack of permission. */
  const PermissionMessage := "Cannot write to files. Use 'File → Open Photos' to grant write access, then try saving again."

  /** What one turn of the save loop works with. */
  datatype SaveJob = SaveJob(filename: string, url: Url, metadata: ExifMetadata)

  /** How one turn of the save loop ends. */
  datatype SaveStep = Saved | Denied | Failed(message: string)

  /** The progress and error state of the library while and after saving. */
  datatype SaveFlags = SaveFlags(isProcessing: bool, progressDone: nat, progressTotal: nat,
                                 needsWriteAccess: bool, errorMessage: Option<string>, showError: bool)

  /** The state `saveChanges` leaves once its loop stopped after `stopped`
      of `total` jobs, with `message` and `failed` as the turns left them
      and `wasShowing` the error flag before the save. */
  function FinishedFlags(total: nat, stopped: nat, message: Option<string>, failed: bool, wasShowing: bool): SaveFlags {
    if stopped < total then SaveFlags(false, 0, total, true, Some(PermissionMessage), true)
    else SaveFlags(false, 0, total, false, message, wasShowing || failed)
  }

  /** After a save the library is idle with its progress cleared; it asks for
      write access (with the permission message showing) exactly when a
      write was refused, and otherwise keeps the turns' message and shows an
      error when one showed before or a turn failed. */
  lemma FinishedFlagsMeaning(total: nat, stopped: nat, message: Option<string>, failed: bool, wasShowing: bool)
    ensures var f := FinishedFlags(total, stopped, message, failed, wasShowing);
      && !f.isProcessing && f.progressDone == 0 && f.progressTotal == total
      && (f.needsWriteAccess <==> stopped < total)
      && (stopped < total ==> f.errorMessage == Some(PermissionMessage) && f.showError)
      && (stopped >= total ==> f.errorMessage == message && (f.showError <==> wasShowing || failed))
  {
  }

  /** The save jobs for a list of photos with changes (each has a pending
      snapshot; see `PendingOfDirty`). */
  function Plan(ps: seq<PhotoItem>): (r: seq<SaveJob>)
    reads ps
    ensures |r| == |ps|
    ensures forall k :: 0 <= k < |ps| ==>
      r[k] == SaveJob(ps[k].Filename(), ps[k].url, ps[k].pendingMetadata.GetOr(ExifMetadata()))
  {
    if ps == [] then []
    else [SaveJob(ps[0].Filename(), ps[0].url, ps[0].pendingMetadata.GetOr(ExifMetadata()))] + Plan(ps[1..])
  }

  /** One turn: write the metadata; a permission error is `Denied`, any
      other error a failure with its description; then, when file dates are
      synchronised and the record has a capture date, update the file dates,
      whose failure is a failure too. */
  function StepFor(job: SaveJob, syncFileDates: bool,
                   write: (Url, ExifMetadata) -> Outcome<ExifService.ExifError>,
                   updateDates: (Url, Date) -> Outcome<string>): (r: SaveStep)
    ensures r == Denied <==> write(job.url, job.metadata) == Fail(ExifService.NoWritePermission)
    ensures r == Saved ==> write(job.url, job.metadata) == Pass
    ensures write(job.url, job.metadata) == Pass && (!syncFileDates || job.metadata.dateTimeOriginal.None?) ==> r == Saved
    ensures write(job.url, job.metadata) == Pass && syncFileDates && job.metadata.dateTimeOriginal.Some? ==>
      (r == Saved <==> updateDates(job.url, job.metadata.dateTimeOriginal.value) == Pass)
    ensures r.Failed? && write(job.url, job.metadata).Fail? ==>
      r.message == ExifService.Description(write(job.url, job.metadata).error)
    ensures r.Failed? && write(job.url, job.metadata) == Pass ==>
      && syncFileDates && job.metadata.dateTimeOriginal.Some?
      && updateDates(job.url, job.metadata.dateTimeOriginal.value) == Fail(r.message)
  {
    match write(job.url, job.metadata)
    case Fail(e) =>
      if e == ExifService.NoWritePermission then Denied else Failed(ExifService.Description(e))
    case Pass =>
      if syncFileDates && job.metadata.dateTimeOriginal.Some? then
        match updateDates(job.url, job.metadata.dateTimeOriginal.value)
        case Fail(message) => Failed(message)
        case Pass => Saved
      else Saved
  }

  /** The original snapshots of a list of photos. */
  function Originals(ps: seq<PhotoItem>): (r: seq<Option<ExifMetadata>>)
    reads ps
    ensures |r| == |ps| && forall k :: 0 <= k < |ps| ==> r[k] == ps[k].originalMetadata
  {
    if ps == [] then [] else [ps[0].originalMetadata] + Originals(ps[1..])
  }

  /** The pending snapshots of a list of photos. */
  function Pendings(ps: seq<PhotoItem>): (r: seq<Option<ExifMetadata>>)
    reads ps
    ensures |r| == |ps| && forall k :: 0 <= k < |ps| ==> r[k] == ps[k].pendingMetadata
  {
    if ps == [] then [] else [ps[0].pendingMetadata] + Pendings(ps[1..])
  }

  /** Every photo of `ps` holds the pending and the original snapshot
      listed for it. */
  ghost predicate Holds(ps: seq<PhotoItem>, pendings: seq<Option<ExifMetadata>>, originals: seq<Option<ExifMetadata>>)
    reads ps
  {
    && |pendings| == |ps| && |originals| == |ps|
    && (forall k :: 0 <= k < |ps| ==> ps[k].pendingMetadata == pendings[k])
    && (forall k :: 0 <= k < |ps| ==> ps[k].originalMetadata == originals[k])
  }

  /** The original snapshots after the first `n` turns, starting from
      `originals`: each turn that ends `Saved` makes the record it wrote the
      original of its photo. */
  function Committed(plan: seq<SaveJob>, steps: seq<SaveStep>, n: nat,
                     originals: seq<Option<ExifMetadata>>): (r: seq<Option<ExifMetadata>>)
    requires |steps| == |plan| == |originals| && n <= |plan|
    ensures |r| == |originals|
  {
    if n == 0 then originals
    else
      var k := n - 1;
      Committed(plan, steps, k, originals)[k := if steps[k].Saved? then Some(plan[k].metadata) else originals[k]]
  }

  /** Photo `k` holds the record it wrote when its turn came and ended
      `Saved`, and its old original otherwise. */
  lemma {:induction false} CommittedAt(plan: seq<SaveJob>, steps: seq<SaveStep>, n: nat,
                                       originals: seq<Option<ExifMetadata>>, k: nat)
    requires |steps| == |plan| == |originals| && n <= |plan| && k < |plan|
    ensures Committed(plan, steps, n, originals)[k] ==
      if k < n && steps[k].Saved? then Some(plan[k].metadata) else originals[k]
  {
    if n > 0 {
      CommittedAt(plan, steps, n - 1, originals, k);
    }
  }

  /** A turn that does not end `Saved` leaves the originals as they were. */
  lemma CommittedSkip(plan: seq<SaveJob>, steps: seq<SaveStep>, n: nat, originals: seq<Option<ExifMetadata>>)
    requires |steps| == |plan| == |originals| && n < |plan| && !steps[n].Saved?
    ensures Committed(plan, steps, n + 1, originals) == Committed(plan, steps, n, originals)
  {
    CommittedAt(plan, steps, n, originals, n);
  }

  /** After `n` turns a photo still has changes exactly when its turn has
      not ended `Saved` and it had changes before: a saved photo is clean. */
  lemma CommittedDirty(plan: seq<SaveJob>, steps: seq<SaveStep>, n: nat,
                       originals: seq<Option<ExifMetadata>>, k: nat)
    requires |steps| == |plan| == |originals| && n <= |plan| && k < |plan|
    ensures Dirty(Committed(plan, steps, n, originals)[k], Some(plan[k].metadata)) <==>
      !(k < n && steps[k].Saved?) && Dirty(originals[k], Some(plan[k].metadata))
  {
    CommittedAt(plan, steps, n, originals, k);
  }

  /** The first `n` turns went through, and the message, the failure flag
      and the progress reports are what they left. */
  predicate Tallied(plan: seq<SaveJob>, steps: seq<SaveStep>, n: nat, initial: Option<string>,
                    message: Option<string>, failed: bool, reports: seq<nat>)
  {
    && |steps| == |plan| && n <= |steps|
    && (forall k :: 0 <= k < n ==> !steps[k].Denied?)
    && message == ErrorAfter(plan, steps, n, initial)
    && failed == AnyFailed(steps, n)
    && reports == Counting(n)
  }

  /** The turn each job would take, in order, if the loop never stopped. */
  function Steps(plan: seq<SaveJob>, syncFileDates: bool,
                 write: (Url, ExifMetadata) -> Outcome<ExifService.ExifError>,
                 updateDates: (Url, Date) -> Outcome<string>): (r: seq<SaveStep>)
    ensures |r| == |plan|
  {
    if plan == [] then []
    else Steps(plan[..|plan| - 1], syncFileDates, write, updateDates) + [StepFor(plan[|plan| - 1], syncFileDates, write, updateDates)]
  }

  /** Turn `i` is the step of job `i`. */
  lemma {:induction false} StepsAt(plan: seq<SaveJob>, syncFileDates: bool,
                                   write: (Url, ExifMetadata) -> Outcome<ExifService.ExifError>,
                                   updateDates: (Url, Date) -> Outcome<string>, i: nat)
    requires i < |plan|
    ensures Steps(plan, syncFileDates, write, updateDates)[i] == StepFor(plan[i], syncFileDates, write, updateDates)
    decreases |plan|
  {
    if i < |plan| - 1 {
      StepsAt(plan[..|plan| - 1], syncFileDates, write, updateDates, i);
      assert plan[..|plan| - 1][i] == plan[i];
    }
  }

  /** Where the loop stops: at the first refused write, or after the last job. */
  function FirstDenied(steps: seq<SaveStep>): (n: nat)
    ensures n <= |steps|
  {
    if steps == [] then 0
    else if steps[0].Denied? then 0
    else 1 + FirstDenied(steps[1..])
  }

  /** `FirstDenied` is the position of the first `Denied` turn, or the
      number of turns when there is none. */
  lemma {:induction false} FirstDeniedIs(steps: seq<SaveStep>, n: nat)
    ensures FirstDenied(steps) == n <==>
      && n <= |steps|
      && (forall k :: 0 <= k < n ==> !steps[k].Denied?)
      && (n < |steps| ==> steps[n].Denied?)
  {
    if steps != [] && !steps[0].Denied? && n > 0 {
      FirstDeniedIs(steps[1..], n - 1);
      forall k | 0 < k < |steps|
        ensures steps[k] == steps[1..][k - 1]
      {
      }
    }
  }

  /** The error message after the first `n` turns, each failure overwriting
      the previous message with "filename: description". */
  function ErrorAfter(plan: seq<SaveJob>, steps: seq<SaveStep>, n: nat, initial: Option<string>): Option<string>
    requires |steps| == |plan| && n <= |steps|
  {
    if n == 0 then initial
    else if steps[n - 1].Failed? then Some(plan[n - 1].filename + ": " + steps[n - 1].message)
    else ErrorAfter(plan, steps, n - 1, initial)
  }

  /** When none of the first `n` turns failed, the message from before is
      still there. */
  lemma {:induction false} ErrorAfterNoFailure(plan: seq<SaveJob>, steps: seq<SaveStep>, n: nat, initial: Option<string>)
    requires |steps| == |plan| && n <= |steps|
    requires forall k :: 0 <= k < n ==> !steps[k].Failed?
    ensures ErrorAfter(plan, steps, n, initial) == initial
  {
    if n > 0 {
      ErrorAfterNoFailure(plan, steps, n - 1, initial);
    }
  }

  /** The message left by `n` turns is the one of the last failure among
      them. */
  lemma {:induction false} ErrorAfterLastFailure(plan: seq<SaveJob>, steps: seq<SaveStep>, n: nat, initial: Option<string>, j: nat)
    requires |steps| == |plan| && j < n <= |steps|
    requires steps[j].Failed? && forall k :: j < k < n ==> !steps[k].Failed?
    ensures ErrorAfter(plan, steps, n, initial) == Some(plan[j].filename + ": " + steps[j].message)
  {
    if j < n - 1 {
      ErrorAfterLastFailure(plan, steps, n - 1, initial, j);
    }
  }


  /** Some of the first `n` turns failed. */
  predicate AnyFailed(steps: seq<SaveStep>, n: nat)
    requires n <= |steps|
  {
    exists k :: 0 <= k < n && steps[k].Failed?
  }

  /** `AnyFailed` grows one turn at a time. */
  lemma AnyFailedStep(steps: seq<SaveStep>, i: nat)
    requires i < |steps|
    ensures AnyFailed(steps, i + 1) <==> AnyFailed(steps, i) || steps[i].Failed?
  {
    if steps[i].Failed? {
      assert 0 <= i < i + 1 && steps[i].Failed?;
    }
  }

  /** One more turn that is not `Denied`: a failure replaces the message
      and sets the flag, and the turn reports its progress. */
  lemma TallyStep(plan: seq<SaveJob>, steps: seq<SaveStep>, i: nat, initial: Option<string>,
                  message: Option<string>, failed: bool, reports: seq<nat>,
                  message': Option<string>, failed': bool, reports': seq<nat>)
    requires Tallied(plan, steps, i, initial, message, failed, reports) && i < |steps| && !steps[i].Denied?
    requires message' == if steps[i].Failed? then Some(plan[i].filename + ": " + steps[i].message) else message
    requires failed' == (failed || steps[i].Failed?)
    requires reports' == reports + [i + 1]
    ensures Tallied(plan, steps, i + 1, initial, message', failed', reports')
  {
    AnyFailedStep(steps, i);
  }

  /** The progress numerators reported by `n` completed turns. */
  function Counting(n: nat): (r: seq<nat>)
    ensures |r| == n
  {
    if n == 0 then [] else Counting(n - 1) + [n]
  }

  /** They are 1, 2, …, n: the progress `(index + 1) / total` of each turn. */
  lemma {:induction false} CountingValues(n: nat)
    ensures forall k :: 0 <= k < n ==> Counting(n)[k] == k + 1
  {
    if n > 0 {
      CountingValues(n - 1);
      assert forall k :: 0 <= k < n - 1 ==> Counting(n)[k] == Counting(n - 1)[k];
    }
  }

  // ---------------------------------------------------------------------------
  // Predefined keywords
  // ---------------------------------------------------------------------------

  datatype PhotoKeyword =
    | Concert | Wedding | Portrait | Event | Landscape | Family
    | Corporate | Fashion | Product | Birthday | Baptism | Graduation
  {
    function RawValue(): string {
      match this
      case Concert => "Concert"
      case Wedding => "Wedding"
      case Portrait => "Portrait"
      case Event => "Event"
      case Landscape => "Landscape"
      case Family => "Family"
      case Corporate => "Corporate"
      case Fashion => "Fashion"
      case Product => "Product"
      case Birthday => "Birthday"
      case Baptism => "Baptism"
      case Graduation => "Graduation"
    }

    static const AllCases: seq<PhotoKeyword> :=
      [Concert, Wedding, Portrait, Event, Landscape, Family,
       Corporate, Fashion, Product, Birthday, Baptism, Graduation]
  }

  /** `AllCases` lists every keyword once. */
  lemma AllCasesComplete(k: PhotoKeyword)
    ensures k in PhotoKeyword.AllCases
    ensures |PhotoKeyword.AllCases| == 12 && Distinct(PhotoKeyword.AllCases)
  {
  }

  /** The raw value (also the `id`) identifies the keyword. */
  lemma RawValueInjective(a: PhotoKeyword, b: PhotoKeyword)
    requires a.RawValue() == b.RawValue()
    ensures a == b
  {
    var ra, rb := a.RawValue(), b.RawValue();
    assert |ra| == |rb| && ra[0] == rb[0] && ra[1] == rb[1];
  }

  // ---------------------------------------------------------------------------
  // The view model
  // ---------------------------------------------------------------------------

  class PhotoLibraryViewModel {
    var photos: seq<PhotoItem>
    var selectedPhotoIDs: set<nat>
    var isProcessing: bool
    /** `processingProgress` is `progressDone / progressTotal` (0 when
        `progressDone` is 0). */
    var progressDone: nat
    var progressTotal: nat
    var errorMessage: Option<string>
    var showError: bool

    var editingDate: Date
    var editingCoordinate: Option<Coordinate>
    var editingKeywords: set<string>
    var syncFileDates: bool
    var needsWriteAccess: bool

    /** Source of fresh photo ids (stands in for `UUID()`). */
    var nextId: nat

    /** Photos have distinct ids (all issued by `nextId`) and distinct
        URLs, every photo's dirty flag is current, and only listed photos
        are selected. */
    ghost predicate Valid()
      reads this`photos, this`selectedPhotoIDs, this`nextId, photos
    {
      && WellFormed(photos, nextId)
      && selectedPhotoIDs <= Ids(photos)
      && AllValid(photos)
    }

    /** A fresh library: nothing loaded, nothing selected. */
    constructor (now: Date)
      ensures Valid()
      ensures photos == [] && selectedPhotoIDs == {} && editingKeywords == {}
      ensures !isProcessing && progressDone == 0 && errorMessage.None? && !showError
      ensures editingDate == now && editingCoordinate.None? && syncFileDates && !needsWriteAccess
    {
      photos := [];
      selectedPhotoIDs := {};
      isProcessing := false;
      progressDone := 0;
      progressTotal := 0;
      errorMessage := None;
      showError := false;
      editingDate := now;
      editingCoordinate := None;
      editingKeywords := {};
      syncFileDates := true;
      needsWriteAccess := false;
      nextId := 0;
    }

    /** `selectedPhotos`: the listed photos whose id is selected, in list order. */
    function SelectedPhotos(): (r: seq<PhotoItem>)
      reads this`photos, this`selectedPhotoIDs
      ensures forall k :: 0 <= k < |r| ==> r[k] in photos && r[k].id in selectedPhotoIDs
      ensures forall k :: 0 <= k < |photos| && photos[k].id in selectedPhotoIDs ==> photos[k] in r
      ensures IsSubsequence(r, photos)
    {
      var selection := selectedPhotoIDs;
      Filter(photos, (p: PhotoItem) => p.id in selection)
    }

    /** `photosWithChanges`: the dirty photos, in list order. */
    function PhotosWithChanges(): (r: seq<PhotoItem>)
      reads this`photos, photos
      ensures forall k :: 0 <= k < |r| ==> r[k] in photos && r[k].hasChanges
      ensures forall k :: 0 <= k < |photos| && photos[k].hasChanges ==> photos[k] in r
      ensures IsSubsequence(r, photos)
    {
      WithChanges(photos)
    }

    /** Equal ids mean the same photo (`PhotoItem.==` compares ids). */
    lemma IdsIdentifyPhotos(i: nat, j: nat)
      requires Valid() && i < |photos| && j < |photos|
      ensures photos[i].id == photos[j].id <==> i == j
      ensures photos[i].id == photos[j].id <==> photos[i] == photos[j]
    {
    }

    /** A photo with changes always has a pending snapshot, so the
        `guard let metadata = photo.pendingMetadata` of the save loop never
        skips. */
    lemma PendingOfDirty()
      requires Valid()
      ensures forall k :: 0 <= k < |photos| && photos[k].hasChanges ==> photos[k].pendingMetadata.Some?
    {
      forall k | 0 <= k < |photos| && photos[k].hasChanges
        ensures photos[k].pendingMetadata.Some?
      {
        assert photos[k].Valid();
      }
    }

    // -------------------------------------------------------------------------
    // Photo management
    // -------------------------------------------------------------------------

    /** `addPhotos(from:)`: append a new, still loading photo (with a new
        id) for every URL with a supported extension that is not listed
        yet. The background load that follows is `LoadPhotoData`. */
    method AddPhotos(urls: seq<Url>)
      requires Valid()
      modifies this`photos, this`nextId
      ensures Valid()
      ensures |photos| >= |old(photos)| && photos[..|old(photos)|] == old(photos)
      ensures Urls(photos) == Urls(old(photos)) + NewUrls(Urls(old(photos)), SupportedOnly(urls))
      ensures forall k :: |old(photos)| <= k < |photos| ==> photos[k].id >= old(nextId) && Loading(photos[k])
    {
      AddUrls(SupportedOnly(urls));
    }

    /** The loop of `addPhotos` over the URLs that passed the filter. */
    method AddUrls(valid: seq<Url>)
      requires Valid()
      modifies this`photos, this`nextId
      ensures Valid()
      ensures |photos| >= |old(photos)| && photos[..|old(photos)|] == old(photos)
      ensures Urls(photos) == Urls(old(photos)) + NewUrls(Urls(old(photos)), valid)
      ensures forall k :: |old(photos)| <= k < |photos| ==> photos[k].id >= old(nextId) && Loading(photos[k])
    {
      ghost var start := photos;
      ghost var firstId := nextId;
      ghost var news: seq<Url> := [];
      for i := 0 to |valid|
        invariant Valid()
        invariant news == NewUrls(Urls(start), valid[..i])
        invariant Grown(start, news, firstId) && firstId <= nextId
      {
        var url := valid[i];
        assert valid[..i + 1] == valid[..i] + [url];
        NewUrlsStep(Urls(start), valid[..i], url);
        var appended := AddUrl(url, start, news, firstId);
        if appended {
          news := news + [url];
        }
      }
      assert valid[..|valid|] == valid;
      UrlsSplit(photos, start, news);
      PrefixIs(photos, start);
    }

    /** The photo list is `start` followed by new, still loading photos
        (ids from `firstId` on) with the urls `news`. */
    ghost predicate Grown(start: seq<PhotoItem>, news: seq<Url>, firstId: nat)
      reads this`photos, photos
    {
      && |photos| == |start| + |news|
      && (forall k :: 0 <= k < |start| ==> photos[k] == start[k])
      && (forall k :: |start| <= k < |photos| ==> photos[k].url == news[k - |start|])
      && (forall k :: |start| <= k < |photos| ==> photos[k].id >= firstId && Loading(photos[k]))
    }

    /** One turn of the loop of `addPhotos`: the `guard` skips a URL that is
        already listed, any other is appended as a new photo. */
    method AddUrl(url: Url, ghost start: seq<PhotoItem>, ghost news: seq<Url>, ghost firstId: nat)
      returns (appended: bool)
      requires Valid() && Grown(start, news, firstId) && firstId <= nextId
      modifies this`photos, this`nextId
      ensures Valid() && firstId <= nextId
      ensures appended <==> url !in Urls(start) + news
      ensures Grown(start, if appended then news + [url] else news, firstId)
    {
      UrlsSplit(photos, start, news);
      appended := url !in Urls(photos);
      if appended {
        var photo := AppendPhoto(url);
      }
    }

    /** The body of the loop of `addPhotos`: `photos.append(PhotoItem(url: url))`. */
    method AppendPhoto(url: Url) returns (photo: PhotoItem)
      requires Valid() && url !in Urls(photos)
      modifies this`photos, this`nextId
      ensures Valid()
      ensures fresh(photo) && photos == old(photos) + [photo] && photo.url == url && Loading(photo)
      ensures photo.id == old(nextId) && nextId == old(nextId) + 1
      ensures Urls(photos) == old(Urls(photos)) + [url]
    {
      photo := new PhotoItem(nextId, url);
      ghost var before := photos;
      nextId := nextId + 1;
      photos := photos + [photo];
      assert photos[..|before|] == before;
      assert Urls(photos) == Urls(before) + [url];
      IdsGrow(before, photo);
      AppendKeepsAllValid(before, photo);
    }

    /** The background load of one photo, given what reading its metadata
        yields: both snapshots take the record (so the photo is clean), or
        the error's description is recorded; loading ends either way. */
    method LoadPhotoData(photo: PhotoItem, read: Result<ExifMetadata, ExifService.ExifError>)
      requires Valid() && photo.Valid()
      modifies photo
      ensures Valid() && photo.Valid() && !photo.isLoading
      ensures read.Success? ==>
        && photo.originalMetadata == Some(read.value) && photo.pendingMetadata == Some(read.value)
        && !photo.hasChanges && photo.error == old(photo.error)
      ensures read.Failure? ==>
        && photo.error == Some(ExifService.Description(read.error))
        && photo.originalMetadata == old(photo.originalMetadata) && photo.pendingMetadata == old(photo.pendingMetadata)
        && photo.hasChanges == old(photo.hasChanges)
    {
      photo.isLoading := true;
      match read {
        case Success(metadata) =>
          photo.SetOriginal(Some(metadata));
          photo.SetPending(Some(metadata));
        case Failure(e) =>
          photo.error := Some(ExifService.Description(e));
      }
      photo.isLoading := false;
    }

    /** `removeSelectedPhotos()`: drop the selected photos, keep the others
        in order, and clear the selection. */
    method RemoveSelectedPhotos()
      requires Valid()
      modifies this`photos, this`selectedPhotoIDs
      ensures Valid()
      ensures photos == Filter(old(photos), (p: PhotoItem) => p.id !in old(selectedPhotoIDs))
      ensures forall k :: 0 <= k < |photos| ==> photos[k].id !in old(selectedPhotoIDs)
      ensures forall k :: 0 <= k < |old(photos)| && old(photos)[k].id !in old(selectedPhotoIDs) ==> old(photos)[k] in photos
      ensures IsSubsequence(photos, old(photos))
      ensures selectedPhotoIDs == {}
      ensures editingKeywords == old(editingKeywords)
    {
      ghost var before := photos;
      var selection := selectedPhotoIDs;
      photos := Filter(photos, (p: PhotoItem) => p.id !in selection);
      selectedPhotoIDs := {};
      SubsequenceKeepsValid(photos, before);
    }

    /** `clearAllPhotos()` */
    method ClearAllPhotos()
      requires Valid()
      modifies this`photos, this`selectedPhotoIDs
      ensures Valid() && photos == [] && selectedPhotoIDs == {}
      ensures editingKeywords == old(editingKeywords)
    {
      photos := [];
      selectedPhotoIDs := {};
    }

    /** `selectAll()`: every listed photo becomes selected. */
    method SelectAll()
      requires Valid()
      modifies this`selectedPhotoIDs
      ensures Valid() && selectedPhotoIDs == Ids(photos)
      ensures SelectedPhotos() == photos
    {
      selectedPhotoIDs := Ids(photos);
      var selection := selectedPhotoIDs;
      FilterAll(photos, (p: PhotoItem) => p.id in selection);
    }

    /** `deselectAll()` */
    method DeselectAll()
      requires Valid()
      modifies this`selectedPhotoIDs
      ensures Valid() && selectedPhotoIDs == {}
      ensures SelectedPhotos() == []
    {
      selectedPhotoIDs := {};
    }

    /** `toggleSelection(for:)`: flip the membership of one photo's id. The
        photo is one of the listed ones (the grid offers no other). */
    method ToggleSelection(photo: PhotoItem)
      requires Valid() && photo in photos
      modifies this`selectedPhotoIDs
      ensures Valid()
      ensures selectedPhotoIDs == Toggled(old(selectedPhotoIDs), photo.id)
      ensures photo.id in selectedPhotoIDs <==> photo.id !in old(selectedPhotoIDs)
    {
      if photo.id in selectedPhotoIDs {
        selectedPhotoIDs := selectedPhotoIDs - {photo.id};
      } else {
        selectedPhotoIDs := selectedPhotoIDs + {photo.id};
      }
    }

    /** A list that keeps some photos of a valid list, in order, is valid. */
    lemma SubsequenceKeepsValid(kept: seq<PhotoItem>, all: seq<PhotoItem>)
      requires IsSubsequence(kept, all)
      requires DistinctIds(all) && Distinct(Urls(all))
      ensures DistinctIds(kept) && Distinct(Urls(kept))
    {
      SubsequenceKeepsDistinct(kept, all, (p: PhotoItem) => p.id);
      SubsequenceKeepsDistinct(kept, all, (p: PhotoItem) => p.url);
    }

    // -------------------------------------------------------------------------
    // Editing
    // -------------------------------------------------------------------------

    /** The common loop of the `apply…ToSelected` methods: every selected
        photo's pending snapshot takes the edit; nothing else changes. */
    method ApplyToSelected(e: Edit)
      requires Valid()
      modifies photos
      ensures Valid()
      ensures forall p :: p in photos ==>
        && p.pendingMetadata ==
             (if p.id in selectedPhotoIDs then Some(Applied(e, old(p.pendingMetadata))) else old(p.pendingMetadata))
        && p.originalMetadata == old(p.originalMetadata)
        && p.isLoading == old(p.isLoading) && p.error == old(p.error)
    {
      var targets := SelectedPhotos();
      SubsequenceKeepsDistinct(targets, photos, (p: PhotoItem) => p.id);
      StagePending(targets, (pending: Option<ExifMetadata>) => Applied(e, pending));
    }

    /** `for photo in targets { photo.pendingMetadata = stage(photo.pendingMetadata) }` */
    static method StagePending(targets: seq<PhotoItem>, stage: Option<ExifMetadata> -> ExifMetadata)
      requires DistinctIds(targets) && AllValid(targets)
      modifies targets
      ensures forall p :: p in targets ==>
        && p.Valid()
        && p.pendingMetadata == Some(stage(old(p.pendingMetadata)))
        && p.originalMetadata == old(p.originalMetadata)
        && p.isLoading == old(p.isLoading) && p.error == old(p.error)
    {
      for i := 0 to |targets|
        invariant AllValid(targets)
        invariant forall j :: 0 <= j < |targets| ==>
          && targets[j].pendingMetadata ==
               (if j < i then Some(stage(old(targets[j].pendingMetadata))) else old(targets[j].pendingMetadata))
          && targets[j].originalMetadata == old(targets[j].originalMetadata)
          && targets[j].isLoading == old(targets[j].isLoading) && targets[j].error == old(targets[j].error)
      {
        targets[i].SetPending(Some(stage(targets[i].pendingMetadata)));
      }
    }

    /** `applyDateToSelected()` */
    method ApplyDateToSelected()
      requires Valid()
      modifies photos
      ensures Valid()
      ensures forall p :: p in photos ==>
        && p.pendingMetadata ==
             (if p.id in selectedPhotoIDs then Some(StampDate(old(p.pendingMetadata).GetOr(ExifMetadata()), editingDate))
              else old(p.pendingMetadata))
        && p.originalMetadata == old(p.originalMetadata)
        && p.isLoading == old(p.isLoading) && p.error == old(p.error)
    {
      ApplyToSelected(SetDate(editingDate));
    }

    /** `applyLocationToSelected()` */
    method ApplyLocationToSelected()
      requires Valid()
      modifies photos
      ensures Valid()
      ensures forall p :: p in photos ==>
        && p.pendingMetadata ==
             (if p.id in selectedPhotoIDs then Some(StampLocation(old(p.pendingMetadata).GetOr(ExifMetadata()), editingCoordinate))
              else old(p.pendingMetadata))
        && p.originalMetadata == old(p.originalMetadata)
        && p.isLoading == old(p.isLoading) && p.error == old(p.error)
    {
      ApplyToSelected(SetLocation(editingCoordinate));
    }

    /** `removeLocationFromSelected()` */
    method RemoveLocationFromSelected()
      requires Valid()
      modifies photos
      ensures Valid()
      ensures forall p :: p in photos ==>
        && p.pendingMetadata ==
             (if p.id in selectedPhotoIDs then Some(StripLocation(old(p.pendingMetadata).GetOr(ExifMetadata())))
              else old(p.pendingMetadata))
        && p.originalMetadata == old(p.originalMetadata)
        && p.isLoading == old(p.isLoading) && p.error == old(p.error)
    {
      ApplyToSelected(RemoveLocation);
    }

    /** `applyKeywordsToSelected()`: every selected photo's keyword list
        becomes the editing set, each keyword once, and nothing else of the
        record changes. */
    method ApplyKeywordsToSelected()
      requires Valid()
      modifies photos
      ensures Valid()
      ensures forall p :: p in photos ==>
        p.originalMetadata == old(p.originalMetadata) && p.isLoading == old(p.isLoading) && p.error == old(p.error)
      ensures forall p :: p in photos && p.id !in selectedPhotoIDs ==> p.pendingMetadata == old(p.pendingMetadata)
      ensures forall p :: p in photos && p.id in selectedPhotoIDs ==>
        && p.pendingMetadata.Some?
        && p.pendingMetadata.value == StampKeywords(old(p.pendingMetadata).GetOr(ExifMetadata()), p.pendingMetadata.value.keywords)
        && ListsExactly(p.pendingMetadata.value.keywords, editingKeywords)
    {
      var keywords := Elements(editingKeywords);
      ApplyToSelected(SetKeywords(keywords));
    }

    /** `resetSelectedChanges()`: every selected photo drops its staged
        edits and is clean; the others are untouched. */
    method ResetSelectedChanges()
      requires Valid()
      modifies photos
      ensures Valid()
      ensures forall p :: p in photos ==>
        && p.pendingMetadata == (if p.id in selectedPhotoIDs then old(p.originalMetadata) else old(p.pendingMetadata))
        && p.originalMetadata == old(p.originalMetadata)
        && p.isLoading == old(p.isLoading) && p.error == old(p.error)
        && (p.id in selectedPhotoIDs ==> !p.hasChanges)
    {
      var targets := SelectedPhotos();
      SubsequenceKeepsDistinct(targets, photos, (p: PhotoItem) => p.id);
      ResetAll(targets);
    }

    /** `for photo in targets { photo.resetChanges() }` */
    static method ResetAll(targets: seq<PhotoItem>)
      requires DistinctIds(targets) && AllValid(targets)
      modifies targets
      ensures forall p :: p in targets ==>
        && p.Valid() && !p.hasChanges
        && p.pendingMetadata == old(p.originalMetadata)
        && p.originalMetadata == old(p.originalMetadata)
        && p.isLoading == old(p.isLoading) && p.error == old(p.error)
    {
      for i := 0 to |targets|
        invariant AllValid(targets)
        invariant forall j :: 0 <= j < |targets| ==>
          && targets[j].pendingMetadata == (if j < i then old(targets[j].originalMetadata) else old(targets[j].pendingMetadata))
          && targets[j].originalMetadata == old(targets[j].originalMetadata)
          && targets[j].isLoading == old(targets[j].isLoading) && targets[j].error == old(targets[j].error)
          && (j < i ==> !targets[j].hasChanges)
      {
        targets[i].ResetChanges();
      }
    }

    // -------------------------------------------------------------------------
    // Saving
    // -------------------------------------------------------------------------

    /** `saveChanges()`: write every photo with changes, in list order.
        A refused write stops the loop with the permission message; any
        other failure records "filename: description" and goes on; a photo
        whose write (and file-date update) succeeds takes its pending
        snapshot as its original and is clean. Each turn that is not stopped
        reports its progress. With no changes, nothing happens. */
    method SaveChanges(write: (Url, ExifMetadata) -> Outcome<ExifService.ExifError>,
                       updateDates: (Url, Date) -> Outcome<string>)
      returns (reports: seq<nat>)
      requires Valid()
      modifies this`isProcessing, this`progressDone, this`progressTotal, this`needsWriteAccess,
               this`errorMessage, this`showError, photos
      ensures Valid()
      ensures forall p :: p in photos && p !in old(PhotosWithChanges()) ==> unchanged(p)
      ensures var jobs := old(PhotosWithChanges());
        forall k :: 0 <= k < |jobs| ==> jobs[k].isLoading == old(jobs[k].isLoading) && jobs[k].error == old(jobs[k].error)
      ensures old(PhotosWithChanges()) == [] ==> reports == [] && Flags() == old(Flags())
      ensures var jobs := old(PhotosWithChanges());
        var plan := old(Plan(PhotosWithChanges()));
        var steps := Steps(plan, syncFileDates, write, updateDates);
        var n := FirstDenied(steps);
        jobs != [] ==>
          && reports == Counting(n)
          && Flags() == FinishedFlags(|jobs|, n, ErrorAfter(plan, steps, n, old(errorMessage)), AnyFailed(steps, n), old(showError))
          && Holds(jobs, old(Pendings(PhotosWithChanges())), Committed(plan, steps, n, old(Originals(PhotosWithChanges()))))
    {
      var jobs := PhotosWithChanges();
      if jobs == [] {
        return [];
      }
      var plan := Plan(jobs);
      ghost var listed: seq<object> := photos;
      ghost var touched: seq<object> := jobs;
      assert this !in listed && this !in touched;
      reports := SaveAll(jobs, plan, write, updateDates);
    }

    /** The body of `saveChanges` once it has jobs: mark the library busy,
        run the turns until the first refused write, then clear the busy
        flags; a refused write leaves the permission message and asks for
        write access, otherwise the last failure's message (if any) stays.
        Every listed photo keeps its dirty flag current. */
    method SaveAll(jobs: seq<PhotoItem>, plan: seq<SaveJob>,
                   write: (Url, ExifMetadata) -> Outcome<ExifService.ExifError>,
                   updateDates: (Url, Date) -> Outcome<string>)
      returns (reports: seq<nat>)
      requires Valid() && DistinctIds(jobs) && |plan| == |jobs|
      requires forall k :: 0 <= k < |jobs| ==> plan[k].url == jobs[k].url
      modifies this`isProcessing, this`progressDone, this`progressTotal, this`needsWriteAccess,
               this`errorMessage, this`showError, jobs
      ensures Valid()
      ensures forall p :: p in photos && p !in jobs ==> unchanged(p)
      ensures var steps := Steps(plan, syncFileDates, write, updateDates);
        var n := FirstDenied(steps);
        && reports == Counting(n)
        && Flags() == FinishedFlags(|jobs|, n, ErrorAfter(plan, steps, n, old(errorMessage)), AnyFailed(steps, n), old(showError))
        && (forall k :: 0 <= k < |jobs| ==>
             jobs[k].pendingMetadata == old(jobs[k].pendingMetadata) &&
             jobs[k].isLoading == old(jobs[k].isLoading) && jobs[k].error == old(jobs[k].error))
        && (forall k :: 0 <= k < |jobs| ==> jobs[k].originalMetadata == Committed(plan, steps, n, old(Originals(jobs)))[k])
    {
      ghost var originals := Originals(jobs);
      ghost var touched: seq<object> := jobs;
      assert this !in touched;
      var stopped, message, failed;
      stopped, message, failed, reports :=
        RunTurns(photos, jobs, plan, syncFileDates, write, updateDates, errorMessage, originals);
      ValidOf();
      FinishProcessing(|jobs|, stopped, message, failed);
    }

    /** `Valid` from its parts, where the list's shape is known. */
    lemma ValidOf()
      requires WellFormed(photos, nextId) && selectedPhotoIDs <= Ids(photos) && AllValid(photos)
      ensures Valid()
    {
    }

    /** The progress and error state. */
    function Flags(): SaveFlags
      reads this`isProcessing, this`progressDone, this`progressTotal, this`needsWriteAccess,
            this`errorMessage, this`showError
    {
      SaveFlags(isProcessing, progressDone, progressTotal, needsWriteAccess, errorMessage, showError)
    }

    /** The flags `saveChanges` leaves once its loop stopped after `stopped`
        of `total` jobs, with `message` and `failed` as the turns left them:
        no longer busy, progress cleared, and a refused write leaves the
        permission message and the request for write access. */
    method FinishProcessing(total: nat, stopped: nat, message: Option<string>, failed: bool)
      modifies this`isProcessing, this`progressDone, this`progressTotal, this`needsWriteAccess,
               this`errorMessage, this`showError
      ensures Flags() == FinishedFlags(total, stopped, message, failed, old(showError))
    {
      progressTotal := total;
      if stopped < total {
        needsWriteAccess := true;
        errorMessage := Some(PermissionMessage);
        showError := true;
      } else {
        needsWriteAccess := false;
        errorMessage := message;
        showError := showError || failed;
      }
      isProcessing := false;
      progressDone := 0;
    }

    /** The loop of `saveChanges` over its jobs: returns where it stopped
        (the first refused write, or the number of jobs), the error message
        left by the turns before, whether one of them failed, and the
        progress reports. Every photo of `all` keeps its dirty flag current. */
    static method RunTurns(all: seq<PhotoItem>, jobs: seq<PhotoItem>, plan: seq<SaveJob>, syncFileDates: bool,
                           write: (Url, ExifMetadata) -> Outcome<ExifService.ExifError>,
                           updateDates: (Url, Date) -> Outcome<string>,
                           initial: Option<string>, ghost originals: seq<Option<ExifMetadata>>)
      returns (stopped: nat, message: Option<string>, failed: bool, reports: seq<nat>)
      requires DistinctIds(jobs) && |plan| == |jobs| == |originals| && AllValid(all)
      requires forall k :: 0 <= k < |jobs| ==> plan[k].url == jobs[k].url
      requires forall k :: 0 <= k < |jobs| ==> jobs[k].originalMetadata == originals[k]
      modifies jobs
      ensures AllValid(all)
      ensures forall p :: p in all && p !in jobs ==> unchanged(p)
      ensures forall k :: 0 <= k < |jobs| ==>
        jobs[k].pendingMetadata == old(jobs[k].pendingMetadata) &&
        jobs[k].isLoading == old(jobs[k].isLoading) && jobs[k].error == old(jobs[k].error)
      ensures var steps := Steps(plan, syncFileDates, write, updateDates);
        && stopped == FirstDenied(steps)
        && Tallied(plan, steps, stopped, initial, message, failed, reports)
        && forall k :: 0 <= k < |jobs| ==> jobs[k].originalMetadata == Committed(plan, steps, stopped, originals)[k]
    {
      ghost var steps := Steps(plan, syncFileDates, write, updateDates);
      stopped, message, failed, reports := |jobs|, initial, false, [];
      var i := 0;
      while i < |jobs|
        invariant i <= |jobs|
        invariant Tallied(plan, steps, i, initial, message, failed, reports)
        invariant AllValid(all)
        invariant forall k :: 0 <= k < |jobs| ==>
          jobs[k].pendingMetadata == old(jobs[k].pendingMetadata) &&
          jobs[k].isLoading == old(jobs[k].isLoading) && jobs[k].error == old(jobs[k].error)
        invariant forall k :: 0 <= k < |jobs| ==> jobs[k].originalMetadata == Committed(plan, steps, i, originals)[k]
      {
        var step := SaveTurn(all, jobs, plan, i, syncFileDates, write, updateDates, steps, originals);
        if step.Denied? {
          FirstDeniedIs(steps, i);
          CommittedSkip(plan, steps, i, originals);
          stopped := i;
          break;
        }
        ghost var before := (message, failed, reports);
        if step.Failed? {
          message := Some(plan[i].filename + ": " + step.message);
          failed := true;
        }
        var done: nat := i + 1;
        reports := reports + [done];
        TallyStep(plan, steps, i, initial, before.0, before.1, before.2, message, failed, reports);
        i := i + 1;
      }
      if i == |jobs| {
        FirstDeniedIs(steps, i);
      }
    }

    /** Turn `i` of the loop: save job `i` and account for it in the
        original snapshots. */
    static method SaveTurn(all: seq<PhotoItem>, jobs: seq<PhotoItem>, plan: seq<SaveJob>, i: nat, syncFileDates: bool,
                           write: (Url, ExifMetadata) -> Outcome<ExifService.ExifError>,
                           updateDates: (Url, Date) -> Outcome<string>,
                           ghost steps: seq<SaveStep>, ghost originals: seq<Option<ExifMetadata>>)
      returns (step: SaveStep)
      requires DistinctIds(jobs) && |plan| == |jobs| == |originals| && i < |jobs|
      requires plan[i].url == jobs[i].url
      requires steps == Steps(plan, syncFileDates, write, updateDates)
      requires AllValid(all)
      requires forall k :: 0 <= k < |jobs| ==> jobs[k].originalMetadata == Committed(plan, steps, i, originals)[k]
      modifies jobs[i]
      ensures AllValid(all)
      ensures step == steps[i]
      ensures forall k :: 0 <= k < |jobs| ==>
        jobs[k].pendingMetadata == old(jobs[k].pendingMetadata) &&
        jobs[k].isLoading == old(jobs[k].isLoading) && jobs[k].error == old(jobs[k].error)
      ensures forall k :: 0 <= k < |jobs| ==> jobs[k].originalMetadata == Committed(plan, steps, i + 1, originals)[k]
    {
      var photo := jobs[i];
      assert forall k :: 0 <= k < |jobs| && k != i ==> jobs[k] != photo by {
        forall k | 0 <= k < |jobs| && k != i
          ensures jobs[k].id != photo.id
        {
          if k < i {} else {}
        }
      }
      step := SaveOne(photo, plan[i], syncFileDates, write, updateDates);
      StepsAt(plan, syncFileDates, write, updateDates, i);
      assert Committed(plan, steps, i + 1, originals)
          == Committed(plan, steps, i, originals)[i := if steps[i].Saved? then Some(plan[i].metadata) else originals[i]];
      CommittedAt(plan, steps, i, originals, i);
    }

    /** One turn of the save loop: write the pending snapshot and, when file
        dates are synchronised and it has a capture date, update the file
        dates; when both succeed the snapshot becomes the original. */
    static method SaveOne(photo: PhotoItem, job: SaveJob, syncFileDates: bool,
                          write: (Url, ExifMetadata) -> Outcome<ExifService.ExifError>,
                          updateDates: (Url, Date) -> Outcome<string>)
      returns (step: SaveStep)
      requires job.url == photo.url
      modifies photo
      ensures step == StepFor(job, syncFileDates, write, updateDates)
      ensures step.Saved? ==>
        && photo.Valid() && photo.originalMetadata == Some(job.metadata)
        && photo.pendingMetadata == old(photo.pendingMetadata)
        && photo.isLoading == old(photo.isLoading) && photo.error == old(photo.error)
      ensures !step.Saved? ==> unchanged(photo)
    {
      var metadata := job.metadata;
      match write(photo.url, metadata) {
        case Fail(e) =>
          step := if e == ExifService.NoWritePermission then Denied else Failed(ExifService.Description(e));
        case Pass =>
          var dated := if syncFileDates && metadata.dateTimeOriginal.Some? then
            updateDates(photo.url, metadata.dateTimeOriginal.value) else Pass;
          match dated {
            case Fail(m) =>
              step := Failed(m);
            case Pass =>
              photo.SetOriginal(Some(metadata));
              step := Saved;
          }
      }
    }
  }
}
