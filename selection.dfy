/**
 * `select_best_quality` (main.py:391-499): the video and audio Representations of a DASH
 * manifest (ISO/IEC 23009-1) are collected with their resolved URLs, sorted best first, and
 * one of each is chosen — video by an exact `WxH` match, else by the smallest Manhattan
 * distance to the target, else the best; audio always the best.
 */
module Selection {
  import opened Wrappers
  import opened Text
  import opened Manifest
  import opened Sorting

  const BaseUrlTag: string := MpdNs + "BaseURL"
  const AdaptationSetTag: string := MpdNs + "AdaptationSet"
  const RepresentationTag: string := MpdNs + "Representation"

  /** One entry of `video_qualities`; its `resolution` entry is `Resolution(q)`. */
  datatype VideoQuality = VideoQuality(width: nat, height: nat, bandwidth: nat, url: string)

  /** One entry of `audio_qualities`. */
  datatype AudioQuality = AudioQuality(bandwidth: nat, url: string)

  datatype Qualities = Qualities(video: seq<VideoQuality>, audio: seq<AudioQuality>)

  /** The exceptions `select_best_quality` lets escape: `int()` on a non-numeric attribute, a
      `BaseURL` element without text (`None.startswith`), and a target that is not `WxH`. */
  datatype SelectError = BadInteger(text: string) | MissingUrlText | BadTarget(target: string)

  /** The returned pair `(selected_video, selected_audio)`. */
  datatype Selection = Selection(video: Option<VideoQuality>, audio: Option<AudioQuality>)

  /** `urllib.parse.urljoin`, left abstract. */
  type UrlJoin = (string, string) -> string

  // ---------------------------------------------------------------------------------------
  // URLs
  // ---------------------------------------------------------------------------------------

  /** Index of the last `/` in `s`. */
  function LastSlash(s: string): (r: Option<nat>)
    ensures r.Some? ==> r.value < |s| && s[r.value] == '/'
    ensures r.Some? ==> forall j :: r.value < j < |s| ==> s[j] != '/'
    ensures r.None? ==> forall j :: 0 <= j < |s| ==> s[j] != '/'
  {
    if s == [] then None
    else if s[|s| - 1] == '/' then Some(|s| - 1)
    else LastSlash(s[..|s| - 1])
  }

  /** `url.rsplit("/", 1)[0] + "/"`: the URL cut just after its last `/`, or the whole URL with
      a `/` added when it has none. */
  function Directory(url: string): (r: string)
    ensures r != [] && r[|r| - 1] == '/'
    ensures |r| - 1 <= |url| && r[..|r| - 1] == url[..|r| - 1]
    ensures |r| - 1 == |url| ==> forall j :: 0 <= j < |url| ==> url[j] != '/'
    ensures |r| - 1 < |url| ==> url[|r| - 1] == '/' && forall j :: |r| - 1 < j < |url| ==> url[j] != '/'
  {
    match LastSlash(url)
    case None => url + "/"
    case Some(i) => url[..i] + "/"
  }

  /** A `BaseURL` text starting with `http` is taken as it is; any other is joined to `base`. */
  function ResolveUrl(base: string, text: string, join: UrlJoin): (r: string)
    ensures StartsWith(text, "http") ==> r == text
    ensures !StartsWith(text, "http") ==> r == join(base, text)
  {
    if StartsWith(text, "http") then text else join(base, text)
  }

  /** The document base of main.py:404-410: the first `BaseURL` anywhere below the root, resolved
      against the manifest URL, or else the manifest URL's directory. */
  function DocumentBase(root: Element, mpdUrl: string, join: UrlJoin): (r: Result<string, SelectError>)
    ensures FindDeep(root, BaseUrlTag).None? ==> r == Ok(Directory(mpdUrl))
    ensures r.Err? <==> FindDeep(root, BaseUrlTag).Some? && FindDeep(root, BaseUrlTag).value.text.None?
    ensures FindDeep(root, BaseUrlTag).Some? && FindDeep(root, BaseUrlTag).value.text.Some? ==>
      r == Ok(ResolveUrl(mpdUrl, FindDeep(root, BaseUrlTag).value.text.value, join))
  {
    match FindDeep(root, BaseUrlTag)
    case None => Ok(Directory(mpdUrl))
    case Some(b) =>
      match b.text
      case None => Err(MissingUrlText)
      case Some(t) => Ok(ResolveUrl(mpdUrl, t, join))
  }

  // ---------------------------------------------------------------------------------------
  // Building the lists
  // ---------------------------------------------------------------------------------------

  /** `int(rep.attrib.get(name, 0))`. */
  function IntAttr(attrs: seq<Attr>, name: string): (r: Result<nat, SelectError>)
    ensures GetAttr(attrs, name).None? ==> r == Ok(0)
    ensures r.Err? <==> GetAttr(attrs, name).Some? && ParseNat(GetAttr(attrs, name).value).None?
    ensures r.Ok? && GetAttr(attrs, name).Some? ==> r == Ok(ParseNat(GetAttr(attrs, name).value).value)
  {
    match GetAttr(attrs, name)
    case None => Ok(0)
    case Some(v) =>
      match ParseNat(v)
      case None => Err(BadInteger(v))
      case Some(n) => Ok(n)
  }

  predicate HasBaseUrl(rep: Element) {
    FindChild(rep, BaseUrlTag).Some?
  }

  /** The URL of a Representation with a `BaseURL` child: `None` for an element with no text. */
  function RepUrl(rep: Element, base: string, join: UrlJoin): (r: Option<string>)
    requires HasBaseUrl(rep)
  {
    match FindChild(rep, BaseUrlTag).value.text
    case None => None
    case Some(t) => Some(ResolveUrl(base, t, join))
  }

  /** The width, the height and the bandwidth of a video Representation all read as numbers. */
  predicate VideoNumbersRead(rep: Element) {
    IntAttr(rep.attrs, "width").Ok? && IntAttr(rep.attrs, "height").Ok? && IntAttr(rep.attrs, "bandwidth").Ok?
  }

  /** One video Representation: its three numbers are read first (so a bad number fails even
      without a `BaseURL`), then the entry exists only when it has a `BaseURL` child. */
  function RepVideo(rep: Element, base: string, join: UrlJoin): (r: Result<Option<VideoQuality>, SelectError>)
    ensures r == Ok(None) <==> VideoNumbersRead(rep) && !HasBaseUrl(rep)
    ensures r.Ok? && r.value.Some? ==>
      HasBaseUrl(rep) && RepUrl(rep, base, join) == Some(r.value.value.url) &&
      IntAttr(rep.attrs, "width") == Ok(r.value.value.width) &&
      IntAttr(rep.attrs, "height") == Ok(r.value.value.height) &&
      IntAttr(rep.attrs, "bandwidth") == Ok(r.value.value.bandwidth)
    ensures r.Err? <==> !VideoNumbersRead(rep) || (HasBaseUrl(rep) && RepUrl(rep, base, join).None?)
  {
    match IntAttr(rep.attrs, "width")
    case Err(e) => Err(e)
    case Ok(w) =>
      match IntAttr(rep.attrs, "height")
      case Err(e) => Err(e)
      case Ok(h) =>
        match IntAttr(rep.attrs, "bandwidth")
        case Err(e) => Err(e)
        case Ok(bw) =>
          if !HasBaseUrl(rep) then Ok(None)
          else
            match RepUrl(rep, base, join)
            case None => Err(MissingUrlText)
            case Some(u) => Ok(Some(VideoQuality(w, h, bw, u)))
  }

  /** One audio Representation: only its bandwidth is read. */
  function RepAudio(rep: Element, base: string, join: UrlJoin): (r: Result<Option<AudioQuality>, SelectError>)
    ensures r == Ok(None) <==> IntAttr(rep.attrs, "bandwidth").Ok? && !HasBaseUrl(rep)
    ensures r.Ok? && r.value.Some? ==>
      HasBaseUrl(rep) && RepUrl(rep, base, join) == Some(r.value.value.url) &&
      IntAttr(rep.attrs, "bandwidth") == Ok(r.value.value.bandwidth)
    ensures r.Err? <==> IntAttr(rep.attrs, "bandwidth").Err? || (HasBaseUrl(rep) && RepUrl(rep, base, join).None?)
  {
    match IntAttr(rep.attrs, "bandwidth")
    case Err(e) => Err(e)
    case Ok(bw) =>
      if !HasBaseUrl(rep) then Ok(None)
      else
        match RepUrl(rep, base, join)
        case None => Err(MissingUrlText)
        case Some(u) => Ok(Some(AudioQuality(bw, u)))
  }

  function OptionToSeq<T>(o: Option<T>): seq<T> {
    if o.Some? then [o.value] else []
  }

  /** The video entries of a list of Representations, in order; the first failing one decides
      the error. Exactly the Representations with a `BaseURL` child give an entry. */
  function VideoEntries(reps: seq<Element>, base: string, join: UrlJoin): Result<seq<VideoQuality>, SelectError> {
    if reps == [] then Ok([])
    else
      match RepVideo(reps[0], base, join)
      case Err(e) => Err(e)
      case Ok(o) =>
        match VideoEntries(reps[1..], base, join)
        case Err(e) => Err(e)
        case Ok(vs) => Ok(OptionToSeq(o) + vs)
  }

  /** The audio entries of a list of Representations, in the same way. */
  function AudioEntries(reps: seq<Element>, base: string, join: UrlJoin): Result<seq<AudioQuality>, SelectError> {
    if reps == [] then Ok([])
    else
      match RepAudio(reps[0], base, join)
      case Err(e) => Err(e)
      case Ok(o) =>
        match AudioEntries(reps[1..], base, join)
        case Err(e) => Err(e)
        case Ok(xs) => Ok(OptionToSeq(o) + xs)
  }

  /** The video list is built exactly when every Representation reads without error, and then
      it has one entry per Representation with a `BaseURL` child. */
  lemma {:induction false} VideoEntriesShape(reps: seq<Element>, base: string, join: UrlJoin)
    ensures VideoEntries(reps, base, join).Ok? <==> forall i :: 0 <= i < |reps| ==> RepVideo(reps[i], base, join).Ok?
    ensures VideoEntries(reps, base, join).Ok? ==> |VideoEntries(reps, base, join).value| == |Filter(reps, HasBaseUrl)|
  {
    if reps != [] {
      VideoEntriesShape(reps[1..], base, join);
      assert forall i :: 1 <= i < |reps| ==> reps[i] == reps[1..][i - 1];
    }
  }

  /** The same for the audio list. */
  lemma {:induction false} AudioEntriesShape(reps: seq<Element>, base: string, join: UrlJoin)
    ensures AudioEntries(reps, base, join).Ok? <==> forall i :: 0 <= i < |reps| ==> RepAudio(reps[i], base, join).Ok?
    ensures AudioEntries(reps, base, join).Ok? ==> |AudioEntries(reps, base, join).value| == |Filter(reps, HasBaseUrl)|
  {
    if reps != [] {
      AudioEntriesShape(reps[1..], base, join);
      assert forall i :: 1 <= i < |reps| ==> reps[i] == reps[1..][i - 1];
    }
  }

  /** `adaptation.attrib.get("mimeType", "")`. */
  function MimeType(adaptation: Element): string {
    match GetAttr(adaptation.attrs, "mimeType")
    case None => ""
    case Some(m) => m
  }

  /** `adaptation.findall("mpd:Representation", namespaces)`. */
  function Representations(adaptation: Element): seq<Element> {
    FindAllChildren(adaptation, RepresentationTag)
  }

  /** What one AdaptationSet adds: its Representations' entries to the video list when the MIME
      type contains `video`, else to the audio list when it contains `audio`, else nothing. */
  function SetQualities(adaptation: Element, base: string, join: UrlJoin): (r: Result<Qualities, SelectError>)
    ensures r.Ok? && !Contains(MimeType(adaptation), "video") ==> r.value.video == []
    ensures r.Ok? && (Contains(MimeType(adaptation), "video") || !Contains(MimeType(adaptation), "audio")) ==> r.value.audio == []
    ensures Contains(MimeType(adaptation), "video") ==>
      (r.Ok? <==> VideoEntries(Representations(adaptation), base, join).Ok?) &&
      (r.Ok? ==> r.value.video == VideoEntries(Representations(adaptation), base, join).value)
    ensures !Contains(MimeType(adaptation), "video") && Contains(MimeType(adaptation), "audio") ==>
      (r.Ok? <==> AudioEntries(Representations(adaptation), base, join).Ok?) &&
      (r.Ok? ==> r.value.audio == AudioEntries(Representations(adaptation), base, join).value)
    ensures !Contains(MimeType(adaptation), "video") && !Contains(MimeType(adaptation), "audio") ==> r.Ok?
  {
    var reps := Representations(adaptation);
    if Contains(MimeType(adaptation), "video") then
      match VideoEntries(reps, base, join)
      case Err(e) => Err(e)
      case Ok(vs) => Ok(Qualities(vs, []))
    else if Contains(MimeType(adaptation), "audio") then
      match AudioEntries(reps, base, join)
      case Err(e) => Err(e)
      case Ok(xs) => Ok(Qualities([], xs))
    else Ok(Qualities([], []))
  }

  /** `q` followed by what `r` holds, or `r`'s error. */
  function Extend(q: Qualities, r: Result<Qualities, SelectError>): Result<Qualities, SelectError> {
    match r
    case Err(e) => Err(e)
    case Ok(q2) => Ok(Qualities(q.video + q2.video, q.audio + q2.audio))
  }

  /** Both lists over the AdaptationSets in document order; the first failure decides the error. */
  function AllQualities(sets: seq<Element>, base: string, join: UrlJoin): Result<Qualities, SelectError> {
    if sets == [] then Ok(Qualities([], []))
    else
      match SetQualities(sets[0], base, join)
      case Err(e) => Err(e)
      case Ok(q) =>
        Extend(q, AllQualities(sets[1..], base, join))
  }

  /** The lists are built exactly when every AdaptationSet is read without error. */
  lemma {:induction false} AllQualitiesOk(sets: seq<Element>, base: string, join: UrlJoin)
    ensures AllQualities(sets, base, join).Ok? <==> forall i :: 0 <= i < |sets| ==> SetQualities(sets[i], base, join).Ok?
  {
    if sets != [] {
      AllQualitiesOk(sets[1..], base, join);
      assert forall i :: 1 <= i < |sets| ==> sets[i] == sets[1..][i - 1];
    }
  }

  /** The unsorted lists `select_best_quality` builds, or the error it raises on the way. */
  function QualitiesOf(root: Element, mpdUrl: string, join: UrlJoin): Result<Qualities, SelectError> {
    match DocumentBase(root, mpdUrl, join)
    case Err(e) => Err(e)
    case Ok(base) => AllQualities(FindAllDeep(root, AdaptationSetTag), base, join)
  }

  // ---------------------------------------------------------------------------------------
  // Sorting and choosing
  // ---------------------------------------------------------------------------------------

  /** The video sort key `(height, width)`. */
  function VideoKey(q: VideoQuality): Key {
    Key(q.height, q.width)
  }

  /** The audio sort key `bandwidth`. */
  function AudioKey(q: AudioQuality): Key {
    Key(q.bandwidth, 0)
  }

  /** `f"{width}x{height}"`. */
  function Resolution(q: VideoQuality): string {
    NatToString(q.width) + "x" + NatToString(q.height)
  }

  /** `target_width, target_height = map(int, target.split("x"))`: exactly two parts, both
      numbers; anything else raises. */
  function ParseTarget(t: string): (r: Result<(nat, nat), SelectError>)
    ensures r.Ok? <==> |Split(t, "x")| == 2 && ParseNat(Split(t, "x")[0]).Some? && ParseNat(Split(t, "x")[1]).Some?
  {
    var parts := Split(t, "x");
    if |parts| != 2 then Err(BadTarget(t))
    else
      match ParseNat(parts[0])
      case None => Err(BadTarget(t))
      case Some(w) =>
        match ParseNat(parts[1])
        case None => Err(BadTarget(t))
        case Some(h) => Ok((w, h))
  }

  function Diff(a: nat, b: nat): nat {
    if a >= b then a - b else b - a
  }

  /** `abs(width - tw) + abs(height - th)`. */
  function Distance(q: VideoQuality, tw: nat, th: nat): nat {
    Diff(q.width, tw) + Diff(q.height, th)
  }

  /** `i` is where the scan with a strict `<` ends: a smallest distance, and the first one. */
  predicate IsClosest(vs: seq<VideoQuality>, tw: nat, th: nat, i: nat) {
    i < |vs| &&
    (forall j :: 0 <= j < |vs| ==> Distance(vs[i], tw, th) <= Distance(vs[j], tw, th)) &&
    (forall j :: 0 <= j < i ==> Distance(vs[i], tw, th) < Distance(vs[j], tw, th))
  }

  /** The index the closest-match scan ends on; `None` only for an empty list. */
  function ClosestIndex(vs: seq<VideoQuality>, tw: nat, th: nat): (r: Option<nat>)
    ensures r.None? <==> vs == []
    ensures r.Some? ==> IsClosest(vs, tw, th, r.value)
  {
    if vs == [] then None
    else
      var init := vs[..|vs| - 1];
      match ClosestIndex(init, tw, th)
      case None => Some(0)
      case Some(b) =>
        if Distance(vs[|vs| - 1], tw, th) < Distance(vs[b], tw, th) then Some(|vs| - 1) else Some(b)
  }

  /** There is only one such index. */
  lemma ClosestUnique(vs: seq<VideoQuality>, tw: nat, th: nat, i: nat, k: nat)
    requires IsClosest(vs, tw, th, i) && IsClosest(vs, tw, th, k)
    ensures i == k
  {
    assert Distance(vs[i], tw, th) == Distance(vs[k], tw, th);
  }

  /** The exact-match test `quality["resolution"] == target_resolution`. */
  function ExactTest(t: string): VideoQuality -> bool {
    q => Resolution(q) == t
  }

  /** Whether `if target_resolution:` takes its branch. */
  predicate TargetGiven(target: Option<string>) {
    Truthy(target)
  }

  function Head<T>(s: seq<T>): Option<T> {
    if s == [] then None else Some(s[0])
  }

  /** The video choice of main.py:462-489 on the sorted list `vs`. */
  function SelectVideo(vs: seq<VideoQuality>, target: Option<string>): Result<Option<VideoQuality>, SelectError> {
    if !TargetGiven(target) then Ok(Head(vs))
    else
      match FirstIndex(vs, ExactTest(target.value))
      case Some(i) => Ok(Some(vs[i]))
      case None =>
        match ParseTarget(target.value)
        case Err(e) => Err(e)
        case Ok((tw, th)) =>
          match ClosestIndex(vs, tw, th)
          case None => Ok(None)
          case Some(i) => Ok(Some(vs[i]))
  }

  /** What `select_best_quality` returns once the manifest is fetched and parsed. */
  function BestQualityOf(root: Element, mpdUrl: string, target: Option<string>, join: UrlJoin): Result<Selection, SelectError> {
    match QualitiesOf(root, mpdUrl, join)
    case Err(e) => Err(e)
    case Ok(q) =>
      match SelectVideo(SortDesc(q.video, VideoKey), target)
      case Err(e) => Err(e)
      case Ok(v) => Ok(Selection(v, Head(SortDesc(q.audio, AudioKey))))
  }

  // ---------------------------------------------------------------------------------------
  // The loops of select_best_quality
  // ---------------------------------------------------------------------------------------

  /** `acc` followed by what `r` holds, or `r`'s error. */
  function Prepend<T>(acc: seq<T>, r: Result<seq<T>, SelectError>): Result<seq<T>, SelectError> {
    match r
    case Err(e) => Err(e)
    case Ok(xs) => Ok(acc + xs)
  }

  lemma PrependAssoc<T>(a: seq<T>, b: seq<T>, r: Result<seq<T>, SelectError>)
    ensures Prepend(a, Prepend(b, r)) == Prepend(a + b, r)
    ensures Prepend([], r) == r
  {
    if r.Ok? {
      assert a + (b + r.value) == (a + b) + r.value;
      assert [] + r.value == r.value;
    }
  }

  lemma ExtendAssoc(q: Qualities, q2: Qualities, r: Result<Qualities, SelectError>)
    ensures Extend(q, Extend(q2, r)) == Extend(Qualities(q.video + q2.video, q.audio + q2.audio), r)
    ensures Extend(Qualities([], []), r) == r
  {
    if r.Ok? {
      assert q.video + (q2.video + r.value.video) == (q.video + q2.video) + r.value.video;
      assert q.audio + (q2.audio + r.value.audio) == (q.audio + q2.audio) + r.value.audio;
      assert [] + r.value.video == r.value.video && [] + r.value.audio == r.value.audio;
    }
  }

  /** The body of the video loop (main.py:419-442) for one Representation. */
  method ReadVideo(rep: Element, base: string, join: UrlJoin) returns (r: Result<Option<VideoQuality>, SelectError>)
    ensures r == RepVideo(rep, base, join)
  {
    var width := IntAttr(rep.attrs, "width");
    if width.Err? {
      return Err(width.error);
    }
    var height := IntAttr(rep.attrs, "height");
    if height.Err? {
      return Err(height.error);
    }
    var bandwidth := IntAttr(rep.attrs, "bandwidth");
    if bandwidth.Err? {
      return Err(bandwidth.error);
    }
    var baseUrlElem := FindChild(rep, BaseUrlTag);
    if baseUrlElem.None? {
      return Ok(None);
    }
    if baseUrlElem.value.text.None? {
      return Err(MissingUrlText);
    }
    var url := ResolveUrl(base, baseUrlElem.value.text.value, join);
    r := Ok(Some(VideoQuality(width.value, height.value, bandwidth.value, url)));
  }

  /** The body of the audio loop (main.py:445-456) for one Representation. */
  method ReadAudio(rep: Element, base: string, join: UrlJoin) returns (r: Result<Option<AudioQuality>, SelectError>)
    ensures r == RepAudio(rep, base, join)
  {
    var bandwidth := IntAttr(rep.attrs, "bandwidth");
    if bandwidth.Err? {
      return Err(bandwidth.error);
    }
    var baseUrlElem := FindChild(rep, BaseUrlTag);
    if baseUrlElem.None? {
      return Ok(None);
    }
    if baseUrlElem.value.text.None? {
      return Err(MissingUrlText);
    }
    var url := ResolveUrl(base, baseUrlElem.value.text.value, join);
    r := Ok(Some(AudioQuality(bandwidth.value, url)));
  }

  lemma VideoEntriesStep(reps: seq<Element>, j: nat, base: string, join: UrlJoin)
    requires j < |reps|
    ensures VideoEntries(reps[j..], base, join) ==
      match RepVideo(reps[j], base, join)
      case Err(e) => Err(e)
      case Ok(o) => Prepend(OptionToSeq(o), VideoEntries(reps[j + 1..], base, join))
  {
    assert reps[j..][1..] == reps[j + 1..];
  }

  lemma AudioEntriesStep(reps: seq<Element>, j: nat, base: string, join: UrlJoin)
    requires j < |reps|
    ensures AudioEntries(reps[j..], base, join) ==
      match RepAudio(reps[j], base, join)
      case Err(e) => Err(e)
      case Ok(o) => Prepend(OptionToSeq(o), AudioEntries(reps[j + 1..], base, join))
  {
    assert reps[j..][1..] == reps[j + 1..];
  }

  /** The inner loop of main.py:418-442 over the Representations of a video AdaptationSet. */
  method CollectVideo(reps: seq<Element>, base: string, join: UrlJoin) returns (r: Result<seq<VideoQuality>, SelectError>)
    ensures r == VideoEntries(reps, base, join)
  {
    var entries: seq<VideoQuality> := [];
    var j := 0;
    assert reps[0..] == reps;
    PrependAssoc(entries, [], VideoEntries(reps, base, join));
    while j < |reps|
      invariant 0 <= j <= |reps|
      invariant VideoEntries(reps, base, join) == Prepend(entries, VideoEntries(reps[j..], base, join))
    {
      VideoEntriesStep(reps, j, base, join);
      var entry := ReadVideo(reps[j], base, join);
      if entry.Err? {
        return Err(entry.error);
      }
      PrependAssoc(entries, OptionToSeq(entry.value), VideoEntries(reps[j + 1..], base, join));
      entries := entries + OptionToSeq(entry.value);
      j := j + 1;
    }
    assert entries + [] == entries;
    r := Ok(entries);
  }

  /** The inner loop of main.py:444-456 over the Representations of an audio AdaptationSet. */
  method CollectAudio(reps: seq<Element>, base: string, join: UrlJoin) returns (r: Result<seq<AudioQuality>, SelectError>)
    ensures r == AudioEntries(reps, base, join)
  {
    var entries: seq<AudioQuality> := [];
    var j := 0;
    assert reps[0..] == reps;
    PrependAssoc(entries, [], AudioEntries(reps, base, join));
    while j < |reps|
      invariant 0 <= j <= |reps|
      invariant AudioEntries(reps, base, join) == Prepend(entries, AudioEntries(reps[j..], base, join))
    {
      AudioEntriesStep(reps, j, base, join);
      var entry := ReadAudio(reps[j], base, join);
      if entry.Err? {
        return Err(entry.error);
      }
      PrependAssoc(entries, OptionToSeq(entry.value), AudioEntries(reps[j + 1..], base, join));
      entries := entries + OptionToSeq(entry.value);
      j := j + 1;
    }
    assert entries + [] == entries;
    r := Ok(entries);
  }

  /** One round of the outer loop (main.py:416-456): the MIME-type test and the matching
      inner loop. */
  method CollectAdaptation(adaptation: Element, base: string, join: UrlJoin) returns (r: Result<Qualities, SelectError>)
    ensures r == SetQualities(adaptation, base, join)
  {
    var mimeType := MimeType(adaptation);
    var reps := Representations(adaptation);
    if Contains(mimeType, "video") {
      var found := CollectVideo(reps, base, join);
      if found.Err? {
        return Err(found.error);
      }
      r := Ok(Qualities(found.value, []));
    } else if Contains(mimeType, "audio") {
      var found := CollectAudio(reps, base, join);
      if found.Err? {
        return Err(found.error);
      }
      r := Ok(Qualities([], found.value));
    } else {
      r := Ok(Qualities([], []));
    }
  }

  lemma AllQualitiesStep(sets: seq<Element>, i: nat, base: string, join: UrlJoin)
    requires i < |sets|
    ensures AllQualities(sets[i..], base, join) ==
      match SetQualities(sets[i], base, join)
      case Err(e) => Err(e)
      case Ok(q) => Extend(q, AllQualities(sets[i + 1..], base, join))
  {
    assert sets[i..][1..] == sets[i + 1..];
  }

  /** The outer loop of main.py:415-456 over every AdaptationSet in document order, appending
      to the two lists. */
  method CollectQualities(root: Element, base: string, join: UrlJoin) returns (r: Result<Qualities, SelectError>)
    ensures r == AllQualities(FindAllDeep(root, AdaptationSetTag), base, join)
  {
    var sets := FindAllDeep(root, AdaptationSetTag);
    var video: seq<VideoQuality> := [];
    var audio: seq<AudioQuality> := [];
    var i := 0;
    assert sets[0..] == sets;
    ExtendAssoc(Qualities([], []), Qualities([], []), AllQualities(sets, base, join));
    while i < |sets|
      invariant 0 <= i <= |sets|
      invariant AllQualities(sets, base, join) == Extend(Qualities(video, audio), AllQualities(sets[i..], base, join))
    {
      AllQualitiesStep(sets, i, base, join);
      var found := CollectAdaptation(sets[i], base, join);
      if found.Err? {
        return Err(found.error);
      }
      ExtendAssoc(Qualities(video, audio), found.value, AllQualities(sets[i + 1..], base, join));
      video := video + found.value.video;
      audio := audio + found.value.audio;
      i := i + 1;
    }
    assert video + [] == video && audio + [] == audio;
    r := Ok(Qualities(video, audio));
  }

  function At<T>(s: seq<T>, i: Option<nat>): Option<T> {
    if i.Some? && i.value < |s| then Some(s[i.value]) else None
  }

  /** The exact-match loop of main.py:464-469. */
  method FindExact(vs: seq<VideoQuality>, target: string) returns (found: Option<VideoQuality>)
    ensures found == At(vs, FirstIndex(vs, ExactTest(target)))
  {
    found := None;
    var i := 0;
    while i < |vs|
      invariant 0 <= i <= |vs|
      invariant found.None?
      invariant forall j :: 0 <= j < i ==> !ExactTest(target)(vs[j])
    {
      if Resolution(vs[i]) == target {
        found := Some(vs[i]);
        break;
      }
      i := i + 1;
    }
  }

  /** One more step of the scan: the entry at `i` replaces the best so far only when it is
      strictly closer. */
  lemma ClosestStep(vs: seq<VideoQuality>, tw: nat, th: nat, i: nat)
    requires i < |vs|
    ensures ClosestIndex(vs[..i + 1], tw, th) ==
      match ClosestIndex(vs[..i], tw, th)
      case None => Some(i)
      case Some(b) => if Distance(vs[i], tw, th) < Distance(vs[b], tw, th) then Some(i) else Some(b)
  {
    var upto := vs[..i + 1];
    assert upto[..i] == vs[..i] && upto[i] == vs[i];
    match ClosestIndex(vs[..i], tw, th)
    case None =>
    case Some(b) => assert upto[b] == vs[b];
  }

  /** The closest-match loop of main.py:474-485; `minDiff == None` plays `float("inf")`. */
  method FindClosest(vs: seq<VideoQuality>, tw: nat, th: nat) returns (bestMatch: Option<VideoQuality>)
    ensures bestMatch == At(vs, ClosestIndex(vs, tw, th))
  {
    bestMatch := None;
    var minDiff: Option<nat> := None;
    ghost var best: Option<nat> := None;
    var i := 0;
    while i < |vs|
      invariant 0 <= i <= |vs|
      invariant best == ClosestIndex(vs[..i], tw, th)
      invariant bestMatch == At(vs, best)
      invariant best.Some? ==> best.value < i && minDiff == Some(Distance(vs[best.value], tw, th))
      invariant best.None? ==> minDiff.None?
    {
      ClosestStep(vs, tw, th, i);
      var diff := Diff(vs[i].width, tw) + Diff(vs[i].height, th);
      if minDiff.None? || diff < minDiff.value {
        minDiff := Some(diff);
        bestMatch := Some(vs[i]);
        best := Some(i);
      }
      i := i + 1;
    }
    assert vs[..|vs|] == vs;
  }

  /** The video choice of main.py:462-489 on the sorted list. */
  method ChooseVideo(videos: seq<VideoQuality>, target: Option<string>) returns (r: Result<Option<VideoQuality>, SelectError>)
    ensures r == SelectVideo(videos, target)
  {
    var selectedVideo: Option<VideoQuality> := None;
    if TargetGiven(target) {
      selectedVideo := FindExact(videos, target.value);
      if selectedVideo.None? {
        var parsed := ParseTarget(target.value);
        if parsed.Err? {
          return Err(parsed.error);
        }
        selectedVideo := FindClosest(videos, parsed.value.0, parsed.value.1);
      }
    }
    if selectedVideo.None? && videos != [] {
      selectedVideo := Some(videos[0]);
    }
    r := Ok(selectedVideo);
  }

  /** `select_best_quality` from the parsed manifest on: base URL, lists, sorts, choices. */
  method SelectBestQuality(root: Element, mpdUrl: string, target: Option<string>, join: UrlJoin)
    returns (r: Result<Selection, SelectError>)
    ensures r == BestQualityOf(root, mpdUrl, target, join)
  {
    var base := DocumentBase(root, mpdUrl, join);
    if base.Err? {
      return Err(base.error);
    }
    var qualities := CollectQualities(root, base.value, join);
    if qualities.Err? {
      return Err(qualities.error);
    }
    var videos := SortDesc(qualities.value.video, VideoKey);
    var audios := SortDesc(qualities.value.audio, AudioKey);
    var video := ChooseVideo(videos, target);
    if video.Err? {
      return Err(video.error);
    }
    var selectedAudio := if audios != [] then Some(audios[0]) else None;
    r := Ok(Selection(video.value, selectedAudio));
  }

  // ---------------------------------------------------------------------------------------
  // Properties
  // ---------------------------------------------------------------------------------------

  /** The `resolution` string of an entry is a target that parses back to its own size. */
  lemma ResolutionParses(q: VideoQuality)
    ensures ParseTarget(Resolution(q)) == Ok((q.width, q.height))
  {
    var a := NatToString(q.width);
    var b := NatToString(q.height);
    SplitPair(a, 'x', b);
    assert Resolution(q) == a + ['x'] + b;
    NatToStringRoundTrip(q.width);
    NatToStringRoundTrip(q.height);
  }

  /** Two entries have the same `resolution` string exactly when they have the same size. */
  lemma ResolutionInjective(q1: VideoQuality, q2: VideoQuality)
    ensures Resolution(q1) == Resolution(q2) <==> q1.width == q2.width && q1.height == q2.height
  {
    ResolutionParses(q1);
    ResolutionParses(q2);
  }

  /** When the exact-match scan finds an entry, the closest-match scan on the same list would
      have ended on the same entry: the exact pass never changes the outcome. */
  lemma ExactIsClosest(vs: seq<VideoQuality>, t: string)
    requires FirstIndex(vs, ExactTest(t)).Some?
    ensures var i := FirstIndex(vs, ExactTest(t)).value;
      ParseTarget(t) == Ok((vs[i].width, vs[i].height)) &&
      ClosestIndex(vs, vs[i].width, vs[i].height) == Some(i)
  {
    var i := FirstIndex(vs, ExactTest(t)).value;
    var tw, th := vs[i].width, vs[i].height;
    ResolutionParses(vs[i]);
    forall j | 0 <= j < i ensures Distance(vs[i], tw, th) < Distance(vs[j], tw, th) {
      ResolutionInjective(vs[i], vs[j]);
    }
    assert IsClosest(vs, tw, th, i);
    ClosestUnique(vs, tw, th, i, ClosestIndex(vs, tw, th).value);
  }

  /** The exact-match scan over the sorted list finds the first matching entry in document
      order: all matching entries share one sort key, and the sort is stable. */
  lemma ExactFirstInDocumentOrder(vs: seq<VideoQuality>, t: string)
    requires FirstIndex(vs, ExactTest(t)).Some?
    ensures FirstIndex(SortDesc(vs, VideoKey), ExactTest(t)).Some?
    ensures At(SortDesc(vs, VideoKey), FirstIndex(SortDesc(vs, VideoKey), ExactTest(t))) == At(vs, FirstIndex(vs, ExactTest(t)))
  {
    var sorted := SortDesc(vs, VideoKey);
    var q0 := vs[FirstIndex(vs, ExactTest(t)).value];
    var k := VideoKey(q0);
    var p := KeyIs(VideoKey, k);
    assert ExactTest(t)(q0);
    forall q: VideoQuality ensures ExactTest(t)(q) == p(q) {
      ResolutionInjective(q, q0);
      assert p(q) == (VideoKey(q) == k);
    }
    FirstIndexCongruent(vs, ExactTest(t), p);
    FirstIndexCongruent(sorted, ExactTest(t), p);
    FilterHead(vs, p);
    FilterHead(sorted, p);
    SortStable(vs, VideoKey, k);
  }

  /** Without a target, the video chosen is the first entry in document order among those with
      the largest `(height, width)`, and there is none only when the video list is empty. */
  lemma VideoWithoutTarget(root: Element, mpdUrl: string, target: Option<string>, join: UrlJoin) returns (i: nat)
    requires QualitiesOf(root, mpdUrl, join).Ok? && !TargetGiven(target)
    ensures var vs := QualitiesOf(root, mpdUrl, join).value.video;
      var r := BestQualityOf(root, mpdUrl, target, join);
      r.Ok? && (r.value.video.None? <==> vs == []) &&
      (vs != [] ==>
        i < |vs| && r.value.video == Some(vs[i]) &&
        (forall j :: 0 <= j < |vs| ==> !Above(VideoKey(vs[j]), VideoKey(vs[i]))) &&
        (forall j :: 0 <= j < i ==> VideoKey(vs[j]) != VideoKey(vs[i])))
  {
    var vs := QualitiesOf(root, mpdUrl, join).value.video;
    i := 0;
    if vs != [] {
      i := FirstOfSort(vs, VideoKey);
    }
  }

  /** The audio chosen is the first entry in document order among those with the largest
      bandwidth, and there is none only when the audio list is empty. */
  lemma AudioIsBest(root: Element, mpdUrl: string, target: Option<string>, join: UrlJoin) returns (i: nat)
    requires BestQualityOf(root, mpdUrl, target, join).Ok?
    ensures QualitiesOf(root, mpdUrl, join).Ok?
    ensures var xs := QualitiesOf(root, mpdUrl, join).value.audio;
      var r := BestQualityOf(root, mpdUrl, target, join);
      (r.value.audio.None? <==> xs == []) &&
      (xs != [] ==>
        i < |xs| && r.value.audio == Some(xs[i]) &&
        (forall j :: 0 <= j < |xs| ==> xs[j].bandwidth <= xs[i].bandwidth) &&
        (forall j :: 0 <= j < i ==> xs[j].bandwidth < xs[i].bandwidth))
  {
    i := AudioBestOf(QualitiesOf(root, mpdUrl, join).value.audio);
  }

  /** The head of the audio list sorted by bandwidth is the first entry with the largest
      bandwidth. */
  lemma AudioBestOf(xs: seq<AudioQuality>) returns (i: nat)
    ensures Head(SortDesc(xs, AudioKey)).None? <==> xs == []
    ensures xs != [] ==>
      i < |xs| && Head(SortDesc(xs, AudioKey)) == Some(xs[i]) &&
      (forall j :: 0 <= j < |xs| ==> xs[j].bandwidth <= xs[i].bandwidth) &&
      (forall j :: 0 <= j < i ==> xs[j].bandwidth < xs[i].bandwidth)
  {
    i := 0;
    if xs != [] {
      i := FirstOfSort(xs, AudioKey);
    }
  }

  /** With a target that some entry's `resolution` equals, the chosen video is the first such
      entry in document order. */
  lemma ExactMatchChosen(root: Element, mpdUrl: string, target: Option<string>, join: UrlJoin) returns (i: nat)
    requires QualitiesOf(root, mpdUrl, join).Ok? && TargetGiven(target)
    requires FirstIndex(QualitiesOf(root, mpdUrl, join).value.video, ExactTest(target.value)).Some?
    ensures var vs := QualitiesOf(root, mpdUrl, join).value.video;
      var r := BestQualityOf(root, mpdUrl, target, join);
      i < |vs| && Resolution(vs[i]) == target.value &&
      (forall j :: 0 <= j < i ==> Resolution(vs[j]) != target.value) &&
      r.Ok? && r.value.video == Some(vs[i])
  {
    var vs := QualitiesOf(root, mpdUrl, join).value.video;
    i := FirstIndex(vs, ExactTest(target.value)).value;
    ExactFirstInDocumentOrder(vs, target.value);
  }

  /** No entry of the sorted list matches exactly when no entry of the original list does. */
  lemma NoExactAfterSort(vs: seq<VideoQuality>, t: string)
    requires FirstIndex(vs, ExactTest(t)).None?
    ensures FirstIndex(SortDesc(vs, VideoKey), ExactTest(t)).None?
  {
    var sorted := SortDesc(vs, VideoKey);
    forall j | 0 <= j < |sorted| ensures !ExactTest(t)(sorted[j]) {
      assert sorted[j] in multiset(vs);
    }
  }

  /** With a target no entry matches exactly, and a well-formed `WxH`, a non-empty video list
      always yields a video: one at the smallest Manhattan distance from the target, and among
      those the first in descending `(height, width)` order. */
  lemma ClosestChosen(root: Element, mpdUrl: string, target: Option<string>, join: UrlJoin, tw: nat, th: nat) returns (i: nat)
    requires QualitiesOf(root, mpdUrl, join).Ok? && TargetGiven(target)
    requires FirstIndex(QualitiesOf(root, mpdUrl, join).value.video, ExactTest(target.value)).None?
    requires ParseTarget(target.value) == Ok((tw, th))
    requires QualitiesOf(root, mpdUrl, join).value.video != []
    ensures var vs := QualitiesOf(root, mpdUrl, join).value.video;
      var sorted := SortDesc(vs, VideoKey);
      var r := BestQualityOf(root, mpdUrl, target, join);
      r.Ok? && IsClosest(sorted, tw, th, i) && r.value.video == Some(sorted[i]) &&
      sorted[i] in vs && (forall j :: 0 <= j < |vs| ==> Distance(sorted[i], tw, th) <= Distance(vs[j], tw, th))
  {
    var vs := QualitiesOf(root, mpdUrl, join).value.video;
    var sorted := SortDesc(vs, VideoKey);
    NoExactAfterSort(vs, target.value);
    i := ClosestIndex(sorted, tw, th).value;
    assert sorted[i] in multiset(vs);
    forall j | 0 <= j < |vs| ensures Distance(sorted[i], tw, th) <= Distance(vs[j], tw, th) {
      assert vs[j] in multiset(sorted);
    }
  }

  /** A target that no entry matches exactly and that is not `WxH` raises, even when the video
      list is empty. */
  lemma MalformedTargetFails(root: Element, mpdUrl: string, target: Option<string>, join: UrlJoin)
    requires QualitiesOf(root, mpdUrl, join).Ok? && TargetGiven(target)
    requires FirstIndex(QualitiesOf(root, mpdUrl, join).value.video, ExactTest(target.value)).None?
    requires ParseTarget(target.value).Err?
    ensures BestQualityOf(root, mpdUrl, target, join) == Err(BadTarget(target.value))
  {
    NoExactAfterSort(QualitiesOf(root, mpdUrl, join).value.video, target.value);
  }
}
