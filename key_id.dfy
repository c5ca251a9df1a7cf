/**
 * Key-ID discovery in `extract_mpd_info` (main.py:174-208): the `cenc:default_KID`
 * attribute of ISO/IEC 23001-7 (Common Encryption), which a DASH manifest carries on its
 * ContentProtection descriptors (ISO/IEC 23009-1, section 5.8.4.1).
 */
module KeyId {
  import opened Wrappers
  import opened Text
  import opened Manifest

  /** The bare attribute name the first test looks up exactly. */
  const ExactKidName: string := "default_KID"

  /** The namespace-qualified name the fallback query asks for. */
  const CencKidName: string := CencNs + "default_KID"

  /** The attribute-name test of the inner loop: the name contains `default_KID` or `defaultKID`. */
  predicate MentionsKid(a: Attr) {
    Contains(a.name, "default_KID") || Contains(a.name, "defaultKID")
  }

  /** Where the pre-order pass stops at element `e`, and with which `key_id`:
      an exact `default_KID` attribute stops it whatever its value; otherwise the first
      attribute mentioning the key stops it only when its value is non-empty. */
  function StopValue(e: Element): Option<string> {
    match GetAttr(e.attrs, ExactKidName)
    case Some(v) => Some(v)
    case None =>
      match FirstIndex(e.attrs, MentionsKid)
      case Some(i) => if e.attrs[i].value != "" then Some(e.attrs[i].value) else None
      case None => None
  }

  /** The `key_id` the pre-order pass ends with, `""` standing for every falsy value. */
  function FirstPass(elems: seq<Element>): string {
    if elems == [] then ""
    else
      match StopValue(elems[0])
      case Some(v) => v
      case None => FirstPass(elems[1..])
  }

  predicate HasCencKid(e: Element) {
    GetAttr(e.attrs, CencKidName).Some?
  }

  /** The descendants of `root` carrying the qualified attribute, in document order (the
      `findall` query of the fallback). */
  function CencKidCarriers(root: Element): seq<Element> {
    Filter(Descendants(root), HasCencKid)
  }

  /** The fallback loop: the first non-empty qualified `default_KID` value, or `""`. */
  function CencFallback(elems: seq<Element>): string {
    if elems == [] then ""
    else
      match GetAttr(elems[0].attrs, CencKidName)
      case Some(v) => if v != "" then v else CencFallback(elems[1..])
      case None => CencFallback(elems[1..])
  }

  /** The key ID `extract_mpd_info` settles on; `None` is the `return None, None` path. */
  function KeyIdOf(root: Element): (r: Option<string>)
    ensures r.Some? ==> r.value != ""
  {
    var first := FirstPass(Preorder(root));
    if first != "" then Some(first)
    else
      var fallback := CencFallback(CencKidCarriers(root));
      if fallback != "" then Some(fallback) else None
  }

  /** One pass of the outer loop of main.py:178-189 over one element: the exact lookup, then the
      inner loop over its attributes. `stop` says whether the outer loop breaks here, and then
      `keyId` is the value the pass ends with; otherwise `keyId` is falsy. */
  method ScanElement(elem: Element) returns (keyId: Option<string>, stop: bool)
    ensures stop <==> StopValue(elem).Some?
    ensures stop ==> keyId == StopValue(elem)
    ensures !stop ==> !Truthy(keyId)
  {
    keyId := None;
    var exact := GetAttr(elem.attrs, ExactKidName);
    if exact.Some? {
      return exact, true;
    }
    var j := 0;
    while j < |elem.attrs|
      invariant 0 <= j <= |elem.attrs|
      invariant forall k :: 0 <= k < j ==> !MentionsKid(elem.attrs[k])
      invariant keyId.None?
    {
      if MentionsKid(elem.attrs[j]) {
        keyId := Some(elem.attrs[j].value);
        break;
      }
      j := j + 1;
    }
    var found := FirstIndex(elem.attrs, MentionsKid);
    if keyId.Some? {
      assert found.Some? && !(found.value < j) && !(j < found.value);
    } else {
      assert found.None?;
    }
    stop := Truthy(keyId);
  }

  /** The loops of main.py:174-208 as written, with their early `break`s. */
  method FindKeyId(root: Element) returns (keyId: Option<string>)
    ensures keyId == KeyIdOf(root)
  {
    var elems := Preorder(root);
    keyId := None;
    var i := 0;
    while i < |elems|
      invariant 0 <= i <= |elems|
      invariant !Truthy(keyId)
      invariant FirstPass(elems) == FirstPass(elems[i..])
    {
      var elem := elems[i];
      var stop;
      keyId, stop := ScanElement(elem);
      if stop {
        break;
      }
      assert StopValue(elem) == None;
      assert elems[i..][1..] == elems[i + 1..];
      i := i + 1;
    }
    assert !Truthy(keyId) ==> FirstPass(elems) == "";
    assert Truthy(keyId) ==> FirstPass(elems) == keyId.value;
    if !Truthy(keyId) {
      var carriers := CencKidCarriers(root);
      var k := 0;
      while k < |carriers|
        invariant 0 <= k <= |carriers|
        invariant !Truthy(keyId)
        invariant CencFallback(carriers) == CencFallback(carriers[k..])
      {
        keyId := GetAttr(carriers[k].attrs, CencKidName);
        if Truthy(keyId) {
          break;
        }
        assert carriers[k..][1..] == carriers[k + 1..];
        k := k + 1;
      }
      if !Truthy(keyId) {
        keyId := None;
      }
    }
  }

  /** Both names the source looks for pass the attribute-name test. */
  lemma KidNamesMentionKid()
    ensures MentionsKid(Attr(ExactKidName, "")) && MentionsKid(Attr(CencKidName, ""))
  {
    assert OccursAt(ExactKidName, "default_KID", 0);
    assert OccursAt(CencKidName, "default_KID", |CencNs|);
  }

  /** An element with no attribute mentioning the key never stops the pre-order pass. */
  lemma SilentElement(e: Element)
    requires forall a :: a in e.attrs ==> !MentionsKid(a)
    ensures StopValue(e).None?
  {
    KidNamesMentionKid();
    assert forall v :: MentionsKid(Attr(ExactKidName, v)) == MentionsKid(Attr(ExactKidName, ""));
  }

  /** The pass moves over elements that do not stop it. */
  lemma {:induction false} FirstPassSkips(elems: seq<Element>, i: nat)
    requires i <= |elems|
    requires forall j :: 0 <= j < i ==> StopValue(elems[j]).None?
    ensures FirstPass(elems) == FirstPass(elems[i..])
  {
    if i > 0 {
      FirstPassSkips(elems[1..], i - 1);
      assert elems[1..][i - 1..] == elems[i..];
    }
  }

  /** A non-empty result of the pass is the value of a key-like attribute of some element. */
  lemma {:induction false} FirstPassSound(elems: seq<Element>) returns (i: nat, a: Attr)
    requires FirstPass(elems) != ""
    ensures i < |elems| && a in elems[i].attrs && MentionsKid(a) && a.value == FirstPass(elems)
  {
    KidNamesMentionKid();
    match StopValue(elems[0])
    case Some(v) => {
      i := 0;
      match GetAttr(elems[0].attrs, ExactKidName)
      case Some(x) =>
        a := Attr(ExactKidName, x);
      case None =>
        a := elems[0].attrs[FirstIndex(elems[0].attrs, MentionsKid).value];
    }
    case None =>
      var j;
      j, a := FirstPassSound(elems[1..]);
      i := j + 1;
  }

  /** A non-empty fallback result is the value of the qualified attribute of some carrier. */
  lemma {:induction false} CencFallbackSound(elems: seq<Element>) returns (i: nat)
    requires CencFallback(elems) != ""
    ensures i < |elems| && Attr(CencKidName, CencFallback(elems)) in elems[i].attrs
  {
    if GetAttr(elems[0].attrs, CencKidName) == Some(CencFallback(elems)) {
      i := 0;
    } else {
      var j := CencFallbackSound(elems[1..]);
      i := j + 1;
    }
  }

  /** An empty fallback result means every element's qualified `default_KID` is absent or empty. */
  lemma {:induction false} CencFallbackEmpty(elems: seq<Element>)
    requires CencFallback(elems) == ""
    ensures forall i :: 0 <= i < |elems| ==> GetAttr(elems[i].attrs, CencKidName) in {None, Some("")}
  {
    if elems != [] {
      CencFallbackEmpty(elems[1..]);
      assert forall i :: 1 <= i < |elems| ==> elems[i] == elems[1..][i - 1];
    }
  }

  /** Whatever key ID is found is the non-empty value of an attribute, somewhere in the manifest,
      whose name mentions `default_KID` or `defaultKID`. */
  lemma KeyIdIsAnAttributeValue(root: Element) returns (e: Element, a: Attr)
    requires KeyIdOf(root).Some?
    ensures e in Preorder(root) && a in e.attrs && MentionsKid(a) && a.value == KeyIdOf(root).value
  {
    var elems := Preorder(root);
    if FirstPass(elems) != "" {
      var i;
      i, a := FirstPassSound(elems);
      e := elems[i];
    } else {
      var carriers := CencKidCarriers(root);
      var i := CencFallbackSound(carriers);
      e := carriers[i];
      a := Attr(CencKidName, CencFallback(carriers));
      KidNamesMentionKid();
      assert e in Descendants(root);
    }
  }

  /** First tier: when the first element (in pre-order) with any key-like attribute has an exact
      `default_KID` attribute, its value is the key ID. */
  lemma ExactKidWins(root: Element, i: nat, v: string)
    requires i < |Preorder(root)|
    requires forall j, a :: 0 <= j < i && a in Preorder(root)[j].attrs ==> !MentionsKid(a)
    requires GetAttr(Preorder(root)[i].attrs, ExactKidName) == Some(v) && v != ""
    ensures KeyIdOf(root) == Some(v)
  {
    var elems := Preorder(root);
    forall j | 0 <= j < i ensures StopValue(elems[j]).None? {
      SilentElement(elems[j]);
    }
    FirstPassSkips(elems, i);
  }

  /** Second tier: when that element has no exact `default_KID`, the first of its attributes
      whose name mentions the key gives the key ID, provided its value is non-empty. */
  lemma MentionedKidWins(root: Element, i: nat, k: nat)
    requires i < |Preorder(root)|
    requires forall j, a :: 0 <= j < i && a in Preorder(root)[j].attrs ==> !MentionsKid(a)
    requires GetAttr(Preorder(root)[i].attrs, ExactKidName).None?
    requires k < |Preorder(root)[i].attrs| && MentionsKid(Preorder(root)[i].attrs[k])
    requires forall m :: 0 <= m < k ==> !MentionsKid(Preorder(root)[i].attrs[m])
    requires Preorder(root)[i].attrs[k].value != ""
    ensures KeyIdOf(root) == Some(Preorder(root)[i].attrs[k].value)
  {
    var elems := Preorder(root);
    forall j | 0 <= j < i ensures StopValue(elems[j]).None? {
      SilentElement(elems[j]);
    }
    FirstPassSkips(elems, i);
    var e := elems[i];
    var found := FirstIndex(e.attrs, MentionsKid);
    assert found.Some? && !(found.value < k) && !(k < found.value);
    assert StopValue(e) == Some(e.attrs[k].value);
    assert elems[i..][0] == e;
  }

  /** An exact `default_KID` attribute with an empty value ends the pre-order pass there:
      later bare attributes are never read, and only the qualified fallback can still find a key. */
  lemma EmptyExactKidEndsPass(root: Element, i: nat)
    requires i < |Preorder(root)|
    requires forall j, a :: 0 <= j < i && a in Preorder(root)[j].attrs ==> !MentionsKid(a)
    requires GetAttr(Preorder(root)[i].attrs, ExactKidName) == Some("")
    ensures KeyIdOf(root) == (if CencFallback(CencKidCarriers(root)) != "" then Some(CencFallback(CencKidCarriers(root))) else None)
  {
    var elems := Preorder(root);
    forall j | 0 <= j < i ensures StopValue(elems[j]).None? {
      SilentElement(elems[j]);
    }
    FirstPassSkips(elems, i);
  }

  /** When no key ID is found, no descendant of the root carries a non-empty
      `{urn:mpeg:cenc:2013}default_KID` attribute. */
  lemma NoKeyIdMeansNoQualifiedKid(root: Element)
    requires KeyIdOf(root).None?
    ensures forall e :: e in Descendants(root) ==> GetAttr(e.attrs, CencKidName) in {None, Some("")}
  {
    var carriers := CencKidCarriers(root);
    CencFallbackEmpty(carriers);
    forall e | e in Descendants(root) && HasCencKid(e)
      ensures GetAttr(e.attrs, CencKidName) in {None, Some("")}
    {
      var i :| 0 <= i < |Descendants(root)| && Descendants(root)[i] == e;
      assert e in carriers;
    }
  }

  /** A manifest none of whose attributes mentions `default_KID` or `defaultKID` yields no key ID
      (the `return None, None` path of main.py:207-208). */
  lemma {:induction false} NoKidAttributeNoKeyId(root: Element)
    requires forall e, a :: e in Preorder(root) && a in e.attrs ==> !MentionsKid(a)
    ensures KeyIdOf(root).None?
  {
    var elems := Preorder(root);
    forall j | 0 <= j < |elems| ensures StopValue(elems[j]).None? {
      SilentElement(elems[j]);
    }
    FirstPassSkips(elems, |elems|);
    KidNamesMentionKid();
    assert forall v :: MentionsKid(Attr(CencKidName, v)) == MentionsKid(Attr(CencKidName, ""));
    var carriers := CencKidCarriers(root);
    assert forall i :: 0 <= i < |carriers| ==> carriers[i] in elems;
  }
}
