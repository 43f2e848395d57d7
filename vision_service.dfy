/** Keyword suggestions from image classification (`VisionService`): the
    per-image filter, cut and formatting of the classifier's observations,
    and the merge over several images that keeps the highest confidence of
    each keyword and lists the result best first. The classifier itself is
    an input: what it did with each image is a `Classification` value. */
module Vision {
  import opened Wrappers
  import opened Collections
  import Text

  /** `minimumConfidence` */
  const MinimumConfidence: real := 0.40

  /** `maxSuggestions` */
  const MaxSuggestions: nat := 10

  /** One classification observation: an identifier such as
      "outdoor_mountain" and its confidence. */
  datatype Observation = Observation(identifier: string, confidence: real)

  /** `KeywordSuggestion` without its identity. */
  datatype KeywordSuggestion = KeywordSuggestion(keyword: string, confidence: real)

  /** `VisionError` */
  datatype VisionError = CannotLoadImage | ClassificationFailed(reason: string)

  /** What the classifier did with one image: the image could not be
      loaded, the request failed (in its completion handler or in
      `perform`), it finished without classification results, or it
      produced observations. */
  datatype Classification =
    | NotLoaded
    | RequestFailed(reason: string)
    | NoResults
    | Observed(observations: seq<Observation>)

  // ---------------------------------------------------------------------------
  // One image
  // ---------------------------------------------------------------------------

  /** The filter of `classifyImage`: confidence at least the threshold. */
  predicate Qualifies(o: Observation) {
    o.confidence >= MinimumConfidence
  }

  /** `formatKeyword`: underscores become spaces, then `capitalized` (a
      locale-dependent library call, given as `capitalize`). */
  function FormatKeyword(identifier: string, capitalize: string -> string): string {
    capitalize(Text.ReplaceChar(identifier, '_', ' '))
  }

  /** Identifiers that differ only in writing a space or an underscore
      give the same keyword. */
  lemma FormatKeywordIgnoresUnderscores(a: string, b: string, capitalize: string -> string)
    requires |a| == |b|
    requires forall k :: 0 <= k < |a| ==> a[k] == b[k] || (a[k] in "_ " && b[k] in "_ ")
    ensures FormatKeyword(a, capitalize) == FormatKeyword(b, capitalize)
  {
    assert Text.ReplaceChar(a, '_', ' ') == Text.ReplaceChar(b, '_', ' ');
  }

  /** The keyword handed to `capitalized` holds no underscore. */
  lemma FormattedHasNoUnderscore(identifier: string)
    ensures '_' !in Text.ReplaceChar(identifier, '_', ' ')
  {
  }

  /** The observations `classifyImage` keeps: the qualifying ones, in
      their order, at most `MaxSuggestions` of them. */
  function Kept(observations: seq<Observation>): (r: seq<Observation>)
    ensures |r| <= MaxSuggestions
    ensures forall k :: 0 <= k < |r| ==> Qualifies(r[k])
    ensures IsSubsequence(r, observations)
    ensures |r| == if |Filter(observations, Qualifies)| < MaxSuggestions then |Filter(observations, Qualifies)| else MaxSuggestions
    ensures r == Filter(observations, Qualifies)[..|r|]
    ensures |r| < MaxSuggestions ==>
      forall k :: 0 <= k < |observations| && Qualifies(observations[k]) ==> observations[k] in r
  {
    var all := Filter(observations, Qualifies);
    var n := if |all| < MaxSuggestions then |all| else MaxSuggestions;
    SubsequencePrefix(all, observations, n);
    assert n == |all| ==> all[..n] == all;
    all[..n]
  }

  /** The suggestion made from one kept observation. */
  function Suggest(o: Observation, capitalize: string -> string): KeywordSuggestion {
    KeywordSuggestion(FormatKeyword(o.identifier, capitalize), o.confidence)
  }

  /** `classifyImage(at:)`: a failure for an image that cannot be loaded
      or a request that fails, no suggestions when there are no results,
      and otherwise one suggestion per kept observation, in order. */
  function ClassifyImage(c: Classification, capitalize: string -> string): (r: Result<seq<KeywordSuggestion>, VisionError>)
    ensures c.NotLoaded? <==> r == Failure(CannotLoadImage)
    ensures c.RequestFailed? <==> r.Failure? && r.error.ClassificationFailed?
    ensures c.RequestFailed? ==> r.error.reason == c.reason
    ensures c.NoResults? ==> r == Success([])
    ensures c.Observed? ==>
      && r.Success? && |r.value| == |Kept(c.observations)|
      && forall k :: 0 <= k < |r.value| ==> r.value[k] == Suggest(Kept(c.observations)[k], capitalize)
    ensures r.Success? ==> |r.value| <= MaxSuggestions
    ensures r.Success? ==> forall k :: 0 <= k < |r.value| ==> r.value[k].confidence >= MinimumConfidence
  {
    match c
    case NotLoaded => Failure(CannotLoadImage)
    case RequestFailed(reason) => Failure(ClassificationFailed(reason))
    case NoResults => Success([])
    case Observed(observations) =>
      var kept := Kept(observations);
      Success(seq(|kept|, k requires 0 <= k < |kept| => Suggest(kept[k], capitalize)))
  }

  // ---------------------------------------------------------------------------
  // Several images: the specification of the merge
  // ---------------------------------------------------------------------------

  /** Swift's `max` on confidences. */
  function Max(a: real, b: real): real {
    if a < b then b else a
  }

  /** One turn of the inner loop: `allSuggestions[kw] = max(allSuggestions[kw] ?? 0, confidence)`. */
  function MergeOne(m: map<string, real>, s: KeywordSuggestion): map<string, real> {
    m[s.keyword := Max(if s.keyword in m then m[s.keyword] else 0.0, s.confidence)]
  }

  /** The inner loop over a list of suggestions, first to last. */
  function MergeAll(m: map<string, real>, ss: seq<KeywordSuggestion>): map<string, real> {
    if ss == [] then m else MergeOne(MergeAll(m, ss[..|ss| - 1]), ss[|ss| - 1])
  }

  /** The suggestions of the images that were classified, image after image. */
  function Flatten(rs: seq<Result<seq<KeywordSuggestion>, VisionError>>): seq<KeywordSuggestion> {
    if rs == [] then []
    else Flatten(rs[..|rs| - 1]) + (if rs[|rs| - 1].Success? then rs[|rs| - 1].value else [])
  }

  /** The outcome of `classifyImage` for every image. */
  function Results(images: seq<Classification>, capitalize: string -> string): (r: seq<Result<seq<KeywordSuggestion>, VisionError>>)
    ensures |r| == |images| && forall i :: 0 <= i < |images| ==> r[i] == ClassifyImage(images[i], capitalize)
  {
    seq(|images|, i requires 0 <= i < |images| => ClassifyImage(images[i], capitalize))
  }

  /** The suggestions of every classified image, image after image. */
  function Suggestions(images: seq<Classification>, capitalize: string -> string): seq<KeywordSuggestion> {
    Flatten(Results(images, capitalize))
  }

  /** `allSuggestions` after the loop of `classifyImages`. */
  function Merged(images: seq<Classification>, capitalize: string -> string): map<string, real> {
    MergeAll(map[], Suggestions(images, capitalize))
  }

  /** The progress reports: `index + 1` (of `urls.count`) after each image
      that was classified, none for an image whose classification threw. */
  function Progress(rs: seq<Result<seq<KeywordSuggestion>, VisionError>>): seq<nat> {
    if rs == [] then []
    else Progress(rs[..|rs| - 1]) + (if rs[|rs| - 1].Success? then [|rs|] else [])
  }

  /** Merging one list after another is merging their concatenation. */
  lemma {:induction false} MergeAllAppend(m: map<string, real>, a: seq<KeywordSuggestion>, b: seq<KeywordSuggestion>)
    ensures MergeAll(m, a + b) == MergeAll(MergeAll(m, a), b)
    decreases |b|
  {
    if b != [] {
      var last := b[|b| - 1];
      MergeAllAppend(m, a, b[..|b| - 1]);
      calc {
        MergeAll(m, a + b);
        { assert (a + b)[..|a + b| - 1] == a + b[..|b| - 1]; assert (a + b)[|a + b| - 1] == last; }
        MergeOne(MergeAll(m, a + b[..|b| - 1]), last);
        MergeOne(MergeAll(MergeAll(m, a), b[..|b| - 1]), last);
      }
    } else {
      assert a + b == a;
    }
  }

  /** Flattening distributes over concatenation. */
  lemma {:induction false} FlattenAppend(a: seq<Result<seq<KeywordSuggestion>, VisionError>>,
                                         b: seq<Result<seq<KeywordSuggestion>, VisionError>>)
    ensures Flatten(a + b) == Flatten(a) + Flatten(b)
    decreases |b|
  {
    if b != [] {
      var last := b[|b| - 1];
      var tail := if last.Success? then last.value else [];
      FlattenAppend(a, b[..|b| - 1]);
      calc {
        Flatten(a + b);
        { assert (a + b)[..|a + b| - 1] == a + b[..|b| - 1]; assert (a + b)[|a + b| - 1] == last; }
        Flatten(a + b[..|b| - 1]) + tail;
        Flatten(a) + Flatten(b[..|b| - 1]) + tail;
      }
    } else {
      assert a + b == a;
    }
  }

  /** Every suggestion of a classified image meets the threshold. */
  lemma {:induction false} FlattenQualifies(images: seq<Classification>, capitalize: string -> string, n: nat)
    requires n <= |images|
    ensures forall k :: 0 <= k < |Flatten(Results(images, capitalize)[..n])| ==>
      Flatten(Results(images, capitalize)[..n])[k].confidence >= MinimumConfidence
  {
    if n > 0 {
      var rs := Results(images, capitalize);
      FlattenQualifies(images, capitalize, n - 1);
      assert rs[..n][..n - 1] == rs[..n - 1];
    }
  }

  /** The merged map holds exactly the keywords suggested, each with the
      highest confidence any suggestion gave it (all confidences being
      non-negative, the `?? 0` default never shows). */
  lemma {:induction false} MergeAllIsMax(ss: seq<KeywordSuggestion>)
    requires forall k :: 0 <= k < |ss| ==> ss[k].confidence >= 0.0
    ensures forall kw :: kw in MergeAll(map[], ss) <==> exists k :: 0 <= k < |ss| && ss[k].keyword == kw
    ensures forall k :: 0 <= k < |ss| ==> ss[k].confidence <= MergeAll(map[], ss)[ss[k].keyword]
    ensures forall kw :: kw in MergeAll(map[], ss) ==>
      exists k :: 0 <= k < |ss| && ss[k].keyword == kw && ss[k].confidence == MergeAll(map[], ss)[kw]
  {
    if ss != [] {
      var p := ss[..|ss| - 1];
      var s := ss[|ss| - 1];
      MergeAllIsMax(p);
      var before := MergeAll(map[], p);
      var after := MergeAll(map[], ss);
      assert after == MergeOne(before, s);
      forall kw | kw in after
        ensures exists k :: 0 <= k < |ss| && ss[k].keyword == kw && ss[k].confidence == after[kw]
      {
        if kw == s.keyword && after[kw] == s.confidence {
          assert ss[|ss| - 1].keyword == kw;
        } else {
          var k :| 0 <= k < |p| && p[k].keyword == kw && p[k].confidence == before[kw];
          assert ss[k] == p[k];
        }
      }
      forall kw | exists k :: 0 <= k < |ss| && ss[k].keyword == kw
        ensures kw in after
      {
        var k :| 0 <= k < |ss| && ss[k].keyword == kw;
        if k < |p| {
          assert p[k] == ss[k];
        }
      }
      forall k | 0 <= k < |ss|
        ensures ss[k].confidence <= after[ss[k].keyword]
      {
        if k < |p| {
          assert p[k] == ss[k];
        }
      }
    }
  }

  /** What `classifyImages` merges: a keyword is in the result exactly
      when some classified image suggested it; its confidence is the
      highest any of them gave it, and at least the threshold. */
  lemma MergedMeaning(images: seq<Classification>, capitalize: string -> string)
    ensures forall kw :: kw in Merged(images, capitalize) <==>
      exists k :: 0 <= k < |Suggestions(images, capitalize)| && Suggestions(images, capitalize)[k].keyword == kw
    ensures forall k :: 0 <= k < |Suggestions(images, capitalize)| ==>
      Suggestions(images, capitalize)[k].confidence <= Merged(images, capitalize)[Suggestions(images, capitalize)[k].keyword]
    ensures forall kw :: kw in Merged(images, capitalize) ==>
      exists k :: 0 <= k < |Suggestions(images, capitalize)| && Suggestions(images, capitalize)[k].keyword == kw &&
        Suggestions(images, capitalize)[k].confidence == Merged(images, capitalize)[kw]
    ensures forall kw :: kw in Merged(images, capitalize) ==> Merged(images, capitalize)[kw] >= MinimumConfidence
  {
    var rs := Results(images, capitalize);
    FlattenQualifies(images, capitalize, |images|);
    assert rs[..|images|] == rs;
    MergeOfQualifying(Suggestions(images, capitalize));
  }

  /** The merge of suggestions that all meet the threshold: the keywords
      suggested, each with its highest confidence, which meets the
      threshold too. */
  lemma MergeOfQualifying(ss: seq<KeywordSuggestion>)
    requires forall k :: 0 <= k < |ss| ==> ss[k].confidence >= MinimumConfidence
    ensures forall kw :: kw in MergeAll(map[], ss) <==> exists k :: 0 <= k < |ss| && ss[k].keyword == kw
    ensures forall k :: 0 <= k < |ss| ==> ss[k].confidence <= MergeAll(map[], ss)[ss[k].keyword]
    ensures forall kw :: kw in MergeAll(map[], ss) ==>
      exists k :: 0 <= k < |ss| && ss[k].keyword == kw && ss[k].confidence == MergeAll(map[], ss)[kw]
    ensures forall kw :: kw in MergeAll(map[], ss) ==> MergeAll(map[], ss)[kw] >= MinimumConfidence
  {
    MergeAllIsMax(ss);
    var m := MergeAll(map[], ss);
    forall kw | kw in m
      ensures m[kw] >= MinimumConfidence
    {
      var k :| 0 <= k < |ss| && ss[k].keyword == kw && ss[k].confidence == m[kw];
    }
  }

  /** An image whose classification throws contributes nothing: the merge
      is the one of the other images. */
  lemma FailedImageContributesNothing(rs: seq<Result<seq<KeywordSuggestion>, VisionError>>, i: nat)
    requires i < |rs| && rs[i].Failure?
    ensures MergeAll(map[], Flatten(rs)) == MergeAll(map[], Flatten(rs[..i] + rs[i + 1..]))
  {
    var before, after := rs[..i], rs[i + 1..];
    calc {
      Flatten(rs);
      { assert rs == (before + [rs[i]]) + after; }
      Flatten((before + [rs[i]]) + after);
      { FlattenAppend(before + [rs[i]], after); }
      Flatten(before + [rs[i]]) + Flatten(after);
      { assert (before + [rs[i]])[..|before|] == before; }
      Flatten(before) + Flatten(after);
      { FlattenAppend(before, after); }
      Flatten(before + after);
    }
  }

  /** Progress is reported, in increasing order, for exactly the images
      that were classified. */
  lemma {:induction false} ProgressReportsSuccesses(rs: seq<Result<seq<KeywordSuggestion>, VisionError>>)
    ensures forall n :: n in Progress(rs) <==> 1 <= n <= |rs| && rs[n - 1].Success?
    ensures forall i, j :: 0 <= i < j < |Progress(rs)| ==> Progress(rs)[i] < Progress(rs)[j]
  {
    if rs != [] {
      var p := rs[..|rs| - 1];
      ProgressReportsSuccesses(p);
      forall k | 0 <= k < |p|
        ensures rs[k] == p[k]
      {
      }
      forall k | 0 <= k < |Progress(p)|
        ensures Progress(p)[k] <= |p|
      {
        assert Progress(p)[k] in Progress(p);
      }
    }
  }

  // ---------------------------------------------------------------------------
  // Several images: the loop
  // ---------------------------------------------------------------------------

  /** `classifyImages(at:progressHandler:)`: classify each image in turn,
      skip the ones that fail, keep the highest confidence of every
      keyword, and return the keywords sorted by decreasing confidence.
      `progress` lists the reports made to the progress handler. */
  method ClassifyImages(images: seq<Classification>, capitalize: string -> string)
    returns (suggestions: seq<KeywordSuggestion>, progress: seq<nat>)
    ensures progress == Progress(Results(images, capitalize))
    ensures forall i, j :: 0 <= i < j < |suggestions| ==> suggestions[i].keyword != suggestions[j].keyword
    ensures forall k :: 0 <= k < |suggestions| ==>
      suggestions[k].keyword in Merged(images, capitalize) &&
      suggestions[k].confidence == Merged(images, capitalize)[suggestions[k].keyword]
    ensures forall kw :: kw in Merged(images, capitalize) ==>
      exists k :: 0 <= k < |suggestions| && suggestions[k].keyword == kw
    ensures forall i, j :: 0 <= i < j < |suggestions| ==> suggestions[i].confidence >= suggestions[j].confidence
  {
    ghost var results := Results(images, capitalize);
    var all: map<string, real> := map[];
    progress := [];
    for i := 0 to |images|
      invariant all == MergeAll(map[], Flatten(results[..i]))
      invariant progress == Progress(results[..i])
    {
      var outcome := ClassifyImage(images[i], capitalize);
      OneMoreImage(results, i);
      if outcome.Failure? {
        continue;
      }
      MergeAllAppend(map[], Flatten(results[..i]), outcome.value);
      all := MergeSuggestions(all, outcome.value);
      progress := progress + [i + 1];
    }
    assert results[..|images|] == results;
    suggestions := SortedByConfidence(all);
  }

  /** The inner loop of `classifyImages`: each suggestion of one image
      raises its keyword's confidence to the highest seen so far. */
  method MergeSuggestions(m: map<string, real>, found: seq<KeywordSuggestion>) returns (r: map<string, real>)
    ensures r == MergeAll(m, found)
  {
    r := m;
    for j := 0 to |found|
      invariant r == MergeAll(m, found[..j])
    {
      var s := found[j];
      var existing := if s.keyword in r then r[s.keyword] else 0.0;
      r := r[s.keyword := Max(existing, s.confidence)];
      assert found[..j + 1][..j] == found[..j];
    }
    assert found[..|found|] == found;
  }

  /** One more image: a failed one adds neither suggestions nor a progress
      report; a classified one adds its suggestions and reports `i + 1`. */
  lemma OneMoreImage(rs: seq<Result<seq<KeywordSuggestion>, VisionError>>, i: nat)
    requires i < |rs|
    ensures rs[i].Failure? ==> Flatten(rs[..i + 1]) == Flatten(rs[..i]) && Progress(rs[..i + 1]) == Progress(rs[..i])
    ensures rs[i].Success? ==>
      Flatten(rs[..i + 1]) == Flatten(rs[..i]) + rs[i].value && Progress(rs[..i + 1]) == Progress(rs[..i]) + [i + 1]
  {
    assert rs[..i + 1][..i] == rs[..i];
    assert Flatten(rs[..i]) + [] == Flatten(rs[..i]);
    assert Progress(rs[..i]) + [] == Progress(rs[..i]);
  }

  /** `.map { KeywordSuggestion(keyword: $0.key, confidence: $0.value) }
      .sorted { $0.confidence > $1.confidence }`: every entry once, best
      first; entries of equal confidence come in no particular order, as
      the dictionary's own order is unspecified. */
  method SortedByConfidence(m: map<string, real>) returns (r: seq<KeywordSuggestion>)
    ensures forall i, j :: 0 <= i < j < |r| ==> r[i].keyword != r[j].keyword
    ensures forall k :: 0 <= k < |r| ==> r[k].keyword in m && r[k].confidence == m[r[k].keyword]
    ensures forall kw :: kw in m ==> exists k :: 0 <= k < |r| && r[k].keyword == kw
    ensures forall i, j :: 0 <= i < j < |r| ==> r[i].confidence >= r[j].confidence
  {
    var rest := m;
    r := [];
    while rest != map[]
      invariant Ranked(m, rest, r)
      decreases |rest|
    {
      var top := TopKey(rest);
      RankStep(m, rest, r, top);
      r := r + [KeywordSuggestion(top, rest[top])];
      rest := rest - {top};
    }
  }

  /** `r` lists, best first and each once, the entries of `m` that are
      no longer in `rest`; what is left in `rest` ranks no higher. */
  ghost predicate Ranked(m: map<string, real>, rest: map<string, real>, r: seq<KeywordSuggestion>) {
    && (forall kw :: kw in rest ==> kw in m && rest[kw] == m[kw])
    && (forall k :: 0 <= k < |r| ==> r[k].keyword in m && r[k].keyword !in rest && r[k].confidence == m[r[k].keyword])
    && (forall kw :: kw in m ==> kw in rest || exists k :: 0 <= k < |r| && r[k].keyword == kw)
    && (forall i, j :: 0 <= i < j < |r| ==> r[i].keyword != r[j].keyword)
    && (forall i, j :: 0 <= i < j < |r| ==> r[i].confidence >= r[j].confidence)
    && (forall k, kw :: 0 <= k < |r| && kw in rest ==> r[k].confidence >= rest[kw])
  }

  /** Moving a top entry of `rest` to the end of `r` keeps the ranking. */
  lemma RankStep(m: map<string, real>, rest: map<string, real>, r: seq<KeywordSuggestion>, top: string)
    requires Ranked(m, rest, r)
    requires top in rest && forall kw :: kw in rest ==> rest[kw] <= rest[top]
    ensures Ranked(m, rest - {top}, r + [KeywordSuggestion(top, rest[top])])
  {
    var r' := r + [KeywordSuggestion(top, rest[top])];
    var rest' := rest - {top};
    forall kw | kw in m
      ensures kw in rest' || exists k :: 0 <= k < |r'| && r'[k].keyword == kw
    {
      if kw == top {
        assert r'[|r|].keyword == kw;
      } else if kw !in rest {
        var k :| 0 <= k < |r| && r[k].keyword == kw;
        assert r'[k] == r[k];
      }
    }
    forall i, j | 0 <= i < j < |r'|
      ensures r'[i].confidence >= r'[j].confidence && r'[i].keyword != r'[j].keyword
    {
      if j == |r| {
        assert r'[i] == r[i];
      }
    }
  }

  /** A key of highest value in a non-empty map. */
  method TopKey(m: map<string, real>) returns (top: string)
    requires m != map[]
    ensures top in m && forall kw :: kw in m ==> m[kw] <= m[top]
  {
    var keys := m.Keys;
    assert exists kw :: kw in keys by {
      var kw :| kw in m;
    }
    top :| top in keys;
    keys := keys - {top};
    while keys != {}
      invariant keys <= m.Keys && top in m
      invariant forall kw :: kw in m && kw !in keys ==> m[kw] <= m[top]
      decreases |keys|
    {
      var kw :| kw in keys;
      if m[kw] > m[top] {
        top := kw;
      }
      keys := keys - {kw};
    }
  }
}
