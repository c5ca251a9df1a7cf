/**
 * Choosing the manifest URL from the video information of `download_episode`
 * (main.py:750-764): the `contentUrls` entries `middle`, `low` and `lowest`, in that order,
 * then `castContentUri`; the first present, non-blank one is used as it is (unstripped).
 */
module MpdUrl {
  import opened Wrappers
  import opened Text

  /** The `quality_order` list of main.py:754. */
  const QualityOrder: seq<string> := ["middle", "low", "lowest"]

  /** `url and url.strip()`: present, and not only whitespace. */
  predicate Usable(url: Option<string>) {
    url.Some? && NonBlank(url.value)
  }

  /** `content_urls.get(quality)`; a missing or empty `contentUrls` is the empty map. */
  function Lookup(contentUrls: map<string, Option<string>>, quality: string): Option<string> {
    if quality in contentUrls then contentUrls[quality] else None
  }

  /** The four candidates, in the order they are tried. */
  function Candidates(contentUrls: map<string, Option<string>>, castContentUri: Option<string>): (c: seq<Option<string>>)
    ensures |c| == |QualityOrder| + 1
  {
    [Lookup(contentUrls, "middle"), Lookup(contentUrls, "low"), Lookup(contentUrls, "lowest"), castContentUri]
  }

  /** The chosen URL: the first usable candidate, or `None` when there is none (the source then
      tries the HTML page, which is not part of this model). */
  function MpdUrlOf(contentUrls: map<string, Option<string>>, castContentUri: Option<string>): (r: Option<string>)
    ensures r.None? <==> forall i :: 0 <= i < 4 ==> !Usable(Candidates(contentUrls, castContentUri)[i])
    ensures r.Some? ==> NonBlank(r.value)
    ensures r.Some? ==> exists i :: (0 <= i < 4 && Candidates(contentUrls, castContentUri)[i] == r &&
      forall j :: 0 <= j < i ==> !Usable(Candidates(contentUrls, castContentUri)[j]))
  {
    var c := Candidates(contentUrls, castContentUri);
    match FirstIndex(c, Usable)
    case None => None
    case Some(i) =>
      assert c[i] == c[i] && forall j :: 0 <= j < i ==> !Usable(c[j]);
      c[i]
  }

  /** The loop of main.py:752-759 and the `castContentUri` test of main.py:761-764. */
  method ChooseMpdUrl(contentUrls: map<string, Option<string>>, castContentUri: Option<string>) returns (mpdUrl: Option<string>)
    ensures mpdUrl == MpdUrlOf(contentUrls, castContentUri)
  {
    var c := Candidates(contentUrls, castContentUri);
    assert forall j :: 0 <= j < |QualityOrder| ==> c[j] == Lookup(contentUrls, QualityOrder[j]);
    mpdUrl := None;
    var q := 0;
    while q < |QualityOrder|
      invariant 0 <= q <= |QualityOrder|
      invariant mpdUrl.None?
      invariant forall j :: 0 <= j < q ==> !Usable(c[j])
    {
      var url := Lookup(contentUrls, QualityOrder[q]);
      if Usable(url) {
        mpdUrl := url;
        break;
      }
      q := q + 1;
    }
    assert mpdUrl.Some? ==> q < |QualityOrder| && mpdUrl == c[q] && Usable(c[q]) && forall j :: 0 <= j < q ==> !Usable(c[j]);
    if mpdUrl.None? && Usable(castContentUri) {
      mpdUrl := castContentUri;
      q := 3;
    }
    if mpdUrl.Some? {
      assert q < 4 && mpdUrl == c[q] && Usable(c[q]) && forall j :: 0 <= j < q ==> !Usable(c[j]);
      var i := FirstIndex(c, Usable).value;
      assert !(i < q) && !(q < i);
    } else {
      assert forall j :: 0 <= j < 4 ==> !Usable(c[j]);
    }
  }
}
