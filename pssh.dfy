/**
 * PSSH discovery in `extract_mpd_info` (main.py:210-311): the `cenc:pssh` initialisation data
 * of ISO/IEC 23001-7, looked for first in the raw manifest text and then in the parsed tree.
 */
module Pssh {
  import opened Wrappers
  import opened Text
  import opened Manifest
  import KeyId

  const CencOpen: string := "<cenc:pssh"
  const CencClose: string := "</cenc:pssh>"
  const BareOpen: string := "<pssh"
  const BareClose: string := "</pssh>"
  const LiteralOpen: string := "<cenc:pssh>"

  /** `s.strip()` kept only when truthy. */
  function StripToOption(s: string): (r: Option<string>)
    ensures r.Some? <==> NonBlank(s)
    ensures r.Some? ==> r.value == Strip(s) && Stripped(r.value)
  {
    var t := Strip(s);
    if t == "" then None else Some(t)
  }

  // ---------------------------------------------------------------------------------------
  // Text scans (strategies one to three)
  // ---------------------------------------------------------------------------------------

  /** How Python's `re` matches `<open>[^>]*>(.*?)<close>` (with DOTALL) at index `i`, ending the
      opening tag at `>` index `k` and the group at index `m`: `[^>]*>` can only stop at the first
      `>` after the opening text, and the lazy group stops at the first closing text after it. */
  ghost predicate LazyMatch(s: string, open: string, close: string, i: int, k: int, m: int) {
    OccursAt(s, open, i) && i + |open| <= k && OccursAt(s, ">", k)
    && (forall j :: i + |open| <= j < k ==> !OccursAt(s, ">", j))
    && k + 1 <= m && OccursAt(s, close, m)
    && (forall j :: k + 1 <= j < m ==> !OccursAt(s, close, j))
  }

  /** The group the pattern captures when it matches at index `i`. */
  function MatchAt(s: string, open: string, close: string, i: nat): (r: Option<string>)
    ensures r.Some? <==> exists k, m :: LazyMatch(s, open, close, i, k, m)
    ensures forall k, m :: LazyMatch(s, open, close, i, k, m) ==> r == Some(s[k + 1..m])
  {
    if !OccursAt(s, open, i) then None
    else
      match Find(s, ">", i + |open|)
      case None => None
      case Some(k) =>
        match Find(s, close, k + 1)
        case None => None
        case Some(m) =>
          assert LazyMatch(s, open, close, i, k, m);
          Some(s[k + 1..m])
  }

  /** `re.search(pattern, s, re.DOTALL).group(1)` scanning from index `i`: the leftmost match. */
  function SearchFrom(s: string, open: string, close: string, i: nat): Option<string>
    decreases |s| - i
  {
    if i > |s| then None
    else
      match MatchAt(s, open, close, i)
      case Some(g) => Some(g)
      case None => SearchFrom(s, open, close, i + 1)
  }

  function RegexSearch(s: string, open: string, close: string): Option<string> {
    SearchFrom(s, open, close, 0)
  }

  /** The search moves over indices where the opening text does not occur. */
  lemma {:induction false} SearchSkips(s: string, open: string, close: string, from: nat, i: nat)
    requires from <= i <= |s|
    requires forall j :: from <= j < i ==> !OccursAt(s, open, j)
    ensures SearchFrom(s, open, close, from) == SearchFrom(s, open, close, i)
    decreases i - from
  {
    if from < i {
      SearchSkips(s, open, close, from + 1, i);
    }
  }

  /** When the pattern fails at one opening text, it fails at every later one: a later opening
      text reaches a `>` no earlier, and no closing text follows that one. */
  lemma LaterOpeningsFail(s: string, open: string, close: string, i: nat, j: nat)
    requires OccursAt(s, open, i) && MatchAt(s, open, close, i).None? && i < j
    ensures MatchAt(s, open, close, j).None?
  {
    if OccursAt(s, open, j) {
      match Find(s, ">", i + |open|)
      case None =>
      case Some(k) =>
        match Find(s, ">", j + |open|)
        case None =>
        case Some(k2) =>
          assert k <= k2;
          assert Find(s, close, k + 1).None?;
          assert Find(s, close, k2 + 1).None?;
    }
  }

  lemma {:induction false} SearchFailsAfter(s: string, open: string, close: string, i: nat, from: nat)
    requires OccursAt(s, open, i) && MatchAt(s, open, close, i).None? && i < from
    ensures SearchFrom(s, open, close, from).None?
    decreases |s| - from
  {
    if from <= |s| {
      LaterOpeningsFail(s, open, close, i, from);
      SearchFailsAfter(s, open, close, i, from + 1);
    }
  }

  /** Only the first opening text matters: `re.search` either matches there or nowhere. */
  lemma FirstOpeningDecides(s: string, open: string, close: string)
    ensures RegexSearch(s, open, close)
         == match Find(s, open, 0) case None => None case Some(i) => MatchAt(s, open, close, i)
  {
    match Find(s, open, 0)
    case None =>
      SearchSkips(s, open, close, 0, |s|);
      assert SearchFrom(s, open, close, |s|) == SearchFrom(s, open, close, |s| + 1);
    case Some(i) =>
      SearchSkips(s, open, close, 0, i);
      if MatchAt(s, open, close, i).None? {
        SearchFailsAfter(s, open, close, i, i + 1);
      }
  }

  /** Strategies one and two: the regular-expression scan, then `.group(1).strip()`. */
  function RegexStrategy(s: string, open: string, close: string): (r: Option<string>)
    ensures r.Some? ==> Stripped(r.value)
  {
    match RegexSearch(s, open, close)
    case None => None
    case Some(g) => StripToOption(g)
  }

  /** Strategy three: the text between the first `<cenc:pssh>` and the next `</cenc:pssh>`.
      The source's extra test that `</cenc:pssh>` occurs somewhere changes nothing: the scan
      from the first opening tag decides alone (`LiteralScanFromFirstOpen`). */
  function LiteralScan(s: string): (r: Option<string>)
    ensures r.Some? ==> Stripped(r.value)
    ensures r.Some? ==> exists p, e :: LiteralTags(s, p, e)
  {
    match Find(s, LiteralOpen, 0)
    case None => None
    case Some(p) =>
      if Contains(s, CencClose) then
        var r := ScanFrom(s, p + |LiteralOpen|);
        assert r.Some? ==> LiteralTags(s, p, Find(s, CencClose, p + |LiteralOpen|).value);
        r
      else None
  }

  /** The literal scan is the scan from just after the first `<cenc:pssh>`, and nothing without
      one. */
  lemma LiteralScanFromFirstOpen(s: string)
    ensures (forall p :: !OccursAt(s, LiteralOpen, p)) ==> LiteralScan(s).None?
    ensures forall p :: FirstLiteralOpen(s, p) ==> LiteralScan(s) == ScanFrom(s, p + |LiteralOpen|)
  {
    match Find(s, LiteralOpen, 0)
    case None =>
      assert forall p :: !FirstLiteralOpen(s, p);
    case Some(p) =>
      forall p' | FirstLiteralOpen(s, p') ensures LiteralScan(s) == ScanFrom(s, p' + |LiteralOpen|) {
        assert !(p' < p) && !(p < p');
        LiteralScanAt(s, p);
      }
  }

  /** When the first `<cenc:pssh>` is at `p`, the literal scan is the scan from just after it. */
  lemma LiteralScanAt(s: string, p: nat)
    requires Find(s, LiteralOpen, 0) == Some(p)
    ensures LiteralScan(s) == ScanFrom(s, p + |LiteralOpen|)
  {
    if !Contains(s, CencClose) {
      assert forall e :: p + |LiteralOpen| <= e ==> !OccursAt(s, CencClose, e);
    }
  }

  /** `p` is where the first `<cenc:pssh>` of `s` starts. */
  predicate FirstLiteralOpen(s: string, p: int) {
    OccursAt(s, LiteralOpen, p) && forall j :: 0 <= j < p ==> !OccursAt(s, LiteralOpen, j)
  }

  /** `<cenc:pssh>` occurs at `p` and `</cenc:pssh>` at `e`, after it. */
  predicate LiteralTags(s: string, p: int, e: int) {
    OccursAt(s, LiteralOpen, p) && OccursAt(s, CencClose, e) && p + |LiteralOpen| <= e
  }

  /** `e` is where the first `</cenc:pssh>` at or after `start` starts. */
  predicate NextClose(s: string, start: int, e: int) {
    start <= e && OccursAt(s, CencClose, e) && forall j :: start <= j < e ==> !OccursAt(s, CencClose, j)
  }

  /** The text from `start` up to the next `</cenc:pssh>`, stripped, taken only when `start > 10`
      and the text is not empty; nothing when no closing tag follows. */
  function ScanFrom(s: string, start: nat): (r: Option<string>)
    ensures r.Some? ==> Stripped(r.value) && Find(s, CencClose, start).Some?
    ensures (forall e :: start <= e ==> !OccursAt(s, CencClose, e)) ==> r.None?
    ensures forall e :: NextClose(s, start, e) ==>
      r == if start > 10 && start < e then StripToOption(s[start..e]) else None
  {
    match Find(s, CencClose, start)
    case None => None
    case Some(end) =>
      assert forall e :: NextClose(s, start, e) ==> e == end;
      if start > 10 && end > start then StripToOption(s[start..end]) else None
  }

  /** The literal scan can only succeed where the `<cenc:pssh` expression also matches, so it
      matters only when that match stripped to nothing. */
  lemma LiteralScanNeedsRegexMatch(s: string)
    requires LiteralScan(s).Some?
    ensures RegexSearch(s, CencOpen, CencClose).Some?
  {
    var p, e :| LiteralTags(s, p, e);
    LiteralTagsMatch(s, p, e);
  }

  /** A `<cenc:pssh>` followed by a `</cenc:pssh>` gives the `<cenc:pssh` expression a match: its
      first opening text reaches a `>` no later than this one does. */
  lemma LiteralTagsMatch(s: string, p: int, e: int)
    requires LiteralTags(s, p, e)
    ensures RegexSearch(s, CencOpen, CencClose).Some?
  {
    assert LiteralOpen == CencOpen + ">";
    OccursSplit(s, CencOpen, ">", p);
    var i := Find(s, CencOpen, 0).value;
    assert i <= p;
    var k := Find(s, ">", i + |CencOpen|).value;
    assert k <= p + |CencOpen|;
    assert Find(s, CencClose, k + 1).Some? by {
      assert OccursAt(s, CencClose, e) && k + 1 <= e;
    }
    assert MatchAt(s, CencOpen, CencClose, i).Some?;
    FirstOpeningDecides(s, CencOpen, CencClose);
  }

  /** Text occurring at `p` is made of its two halves occurring one after the other. */
  lemma OccursSplit(s: string, a: string, b: string, p: int)
    requires OccursAt(s, a + b, p)
    ensures OccursAt(s, a, p) && OccursAt(s, b, p + |a|)
  {
    assert s[p..p + |a|] == s[p..p + |a + b|][..|a|];
    assert s[p + |a|..p + |a| + |b|] == s[p..p + |a + b|][|a|..];
  }

  // ---------------------------------------------------------------------------------------
  // Tree searches (strategies four and five)
  // ---------------------------------------------------------------------------------------

  /** The Widevine system ID as a URN, in the two spellings the source compares against. */
  const WidevineUuid: string := "urn:uuid:edef8ba9-79d6-4ace-a3c8-27dcd51d21ed"
  const WidevineUuidUpper: string := "urn:uuid:EDEF8BA9-79D6-4ACE-A3C8-27DCD51D21ED"

  const CencPsshTag: string := CencNs + "pssh"
  const BarePsshTag: string := "pssh"

  /** One of the four descriptor queries: descendants with this tag whose `schemeIdUri` equals
      this text exactly. */
  datatype DescriptorQuery = DescriptorQuery(tag: string, scheme: string)

  const DescriptorQueries: seq<DescriptorQuery> := [
    DescriptorQuery(MpdNs + "ContentProtection", WidevineUuid),
    DescriptorQuery(MpdNs + "ContentProtection", WidevineUuidUpper),
    DescriptorQuery("ContentProtection", WidevineUuid),
    DescriptorQuery("ContentProtection", WidevineUuidUpper)
  ]

  predicate Answers(q: DescriptorQuery, e: Element) {
    e.tag == q.tag && GetAttr(e.attrs, "schemeIdUri") == Some(q.scheme)
  }

  /** The test a query applies to each descendant. */
  function AnswerTest(q: DescriptorQuery): Element -> bool {
    (e: Element) => Answers(q, e)
  }

  /** `root.findall(query)`: every descendant answering to the query, the first in document order
      at the head. */
  function RunQuery(root: Element, q: DescriptorQuery): (r: seq<Element>)
    ensures forall i :: 0 <= i < |r| ==> Answers(q, r[i]) && r[i] in Descendants(root)
    ensures forall i :: 0 <= i < |Descendants(root)| && Answers(q, Descendants(root)[i]) ==> Descendants(root)[i] in r
  {
    Filter(Descendants(root), AnswerTest(q))
  }

  /** The head of a query's answer is the first answering descendant in document order. */
  lemma RunQueryHead(root: Element, q: DescriptorQuery)
    ensures RunQuery(root, q) == [] <==> FirstIndex(Descendants(root), AnswerTest(q)).None?
    ensures RunQuery(root, q) != [] ==>
      RunQuery(root, q)[0] == Descendants(root)[FirstIndex(Descendants(root), AnswerTest(q)).value]
  {
    FilterHead(Descendants(root), AnswerTest(q));
  }

  /** Some query of the list answers to the element. */
  predicate AnsweredBy(qs: seq<DescriptorQuery>, e: Element) {
    exists q :: q in qs && Answers(q, e)
  }

  /** `k` is the first query of the list that finds anything. */
  predicate FirstFinding(root: Element, qs: seq<DescriptorQuery>, k: int) {
    0 <= k < |qs| && RunQuery(root, qs[k]) != [] && forall j :: 0 <= j < k ==> RunQuery(root, qs[j]) == []
  }

  /** The answer of the first query that finds anything; empty when none does
      (`FirstAnswerIsFirstFinding`). */
  function FirstAnswer(root: Element, qs: seq<DescriptorQuery>): (r: seq<Element>)
    ensures forall i :: 0 <= i < |r| ==> r[i] in Descendants(root)
    ensures forall i :: 0 <= i < |r| ==> AnsweredBy(qs, r[i])
  {
    if qs == [] then []
    else
      var found := RunQuery(root, qs[0]);
      if found != [] then
        assert forall i :: 0 <= i < |found| ==> AnsweredBy(qs, found[i]) by {
          forall i | 0 <= i < |found| ensures AnsweredBy(qs, found[i]) {
            assert qs[0] in qs && Answers(qs[0], found[i]);
          }
        }
        found
      else
        var rest := FirstAnswer(root, qs[1..]);
        assert forall i :: 0 <= i < |rest| ==> AnsweredBy(qs, rest[i]) by {
          forall i | 0 <= i < |rest| ensures AnsweredBy(qs, rest[i]) {
            assert AnsweredBy(qs[1..], rest[i]);
            var q :| q in qs[1..] && Answers(q, rest[i]);
            assert q in qs;
          }
        }
        rest
  }

  /** The query loop's result is the answer of the first query that finds anything, and it is
      empty exactly when every query finds nothing. */
  lemma {:induction false} FirstAnswerIsFirstFinding(root: Element, qs: seq<DescriptorQuery>)
    ensures FirstAnswer(root, qs) == [] <==> forall k :: 0 <= k < |qs| ==> RunQuery(root, qs[k]) == []
    ensures forall k :: FirstFinding(root, qs, k) ==> FirstAnswer(root, qs) == RunQuery(root, qs[k])
  {
    if qs != [] {
      if RunQuery(root, qs[0]) != [] {
        assert forall k :: FirstFinding(root, qs, k) ==> k == 0;
      } else {
        FirstAnswerIsFirstFinding(root, qs[1..]);
        assert forall k :: 1 <= k < |qs| ==> qs[1..][k - 1] == qs[k];
        forall k | FirstFinding(root, qs, k) ensures FirstFinding(root, qs[1..], k - 1) {
          assert k != 0;
          forall j | 0 <= j < k - 1 ensures RunQuery(root, qs[1..][j]) == [] {
            assert qs[1..][j] == qs[j + 1];
          }
        }
      }
    }
  }

  function WidevineDescriptors(root: Element): seq<Element> {
    FirstAnswer(root, DescriptorQueries)
  }

  /** Every descriptor searched is a ContentProtection element, with or without the MPD
      namespace, whose `schemeIdUri` is exactly one of the two Widevine spellings: the
      comparison is plain string equality, not a case-insensitive one. */
  lemma WidevineDescriptorsMatchExactly(root: Element)
    ensures forall d :: d in WidevineDescriptors(root) ==>
      d in Descendants(root)
      && (d.tag == MpdNs + "ContentProtection" || d.tag == "ContentProtection")
      && (GetAttr(d.attrs, "schemeIdUri") == Some(WidevineUuid) || GetAttr(d.attrs, "schemeIdUri") == Some(WidevineUuidUpper))
  {
    forall d | d in WidevineDescriptors(root)
      ensures (d.tag == MpdNs + "ContentProtection" || d.tag == "ContentProtection")
      ensures GetAttr(d.attrs, "schemeIdUri") == Some(WidevineUuid) || GetAttr(d.attrs, "schemeIdUri") == Some(WidevineUuidUpper)
    {
      var i :| 0 <= i < |WidevineDescriptors(root)| && WidevineDescriptors(root)[i] == d;
      var q :| q in DescriptorQueries && Answers(q, d);
    }
  }

  /** `"pssh" in child.tag.lower()`. */
  predicate PsshLikeTag(tag: string) {
    Contains(AsciiLower(tag), "pssh")
  }

  /** An element's text, stripped, when it is a string with something besides whitespace. */
  function UsableText(t: Option<string>): (r: Option<string>)
    ensures r.Some? <==> t.Some? && NonBlank(t.value)
    ensures r.Some? ==> Stripped(r.value) && r.value == Strip(t.value)
  {
    match t
    case None => None
    case Some(x) => StripToOption(x)
  }

  function OrElse(a: Option<string>, b: Option<string>): Option<string> {
    if a.Some? then a else b
  }

  /** `es[0].text` when the list is not empty and that text is usable. */
  function FirstElementText(es: seq<Element>): (r: Option<string>)
    ensures r.Some? ==> Stripped(r.value)
  {
    if es == [] then None else UsableText(es[0].text)
  }

  /** A child the loop takes: its tag contains `pssh` and its text is usable. */
  predicate UsableChild(c: Element) {
    PsshLikeTag(c.tag) && UsableText(c.text).Some?
  }

  /** The loop over a descriptor's children: the text of the first child whose tag contains
      `pssh`, in any letter case, and whose text is usable. */
  function ChildSearch(cs: seq<Element>): (r: Option<string>)
    ensures r.Some? ==> Stripped(r.value)
    ensures r.None? ==> forall i :: 0 <= i < |cs| ==> !UsableChild(cs[i])
  {
    if cs == [] then None
    else if UsableChild(cs[0]) then UsableText(cs[0].text)
    else
      var r := ChildSearch(cs[1..]);
      assert forall i :: 1 <= i < |cs| ==> cs[i] == cs[1..][i - 1];
      r
  }

  /** The child loop finds nothing exactly when no child is usable, and otherwise the text of
      the first usable child. */
  lemma {:induction false} ChildSearchFirst(cs: seq<Element>)
    ensures ChildSearch(cs).None? <==> FirstIndex(cs, UsableChild).None?
    ensures ChildSearch(cs).Some? ==> ChildSearch(cs) == UsableText(cs[FirstIndex(cs, UsableChild).value].text)
  {
    if cs != [] && !UsableChild(cs[0]) {
      ChildSearchFirst(cs[1..]);
    }
  }

  /** What one descriptor yields: its first `cenc:pssh` descendant, else its first bare `pssh`
      descendant, else its `pssh`-like children, each only when the text is usable. */
  function DescriptorPssh(cp: Element): (r: Option<string>)
    ensures r.Some? ==> Stripped(r.value)
  {
    OrElse(FirstElementText(FindAllDeep(cp, CencPsshTag)),
           OrElse(FirstElementText(FindAllDeep(cp, BarePsshTag)), ChildSearch(cp.children)))
  }

  /** Strategy four: the first descriptor, in document order, that yields something. */
  function DescriptorsSearch(cps: seq<Element>): (r: Option<string>)
    ensures r.Some? ==> Stripped(r.value)
  {
    if cps == [] then None else OrElse(DescriptorPssh(cps[0]), DescriptorsSearch(cps[1..]))
  }

  /** The elements strategy five walks: every `cenc:pssh` descendant of the root or, only when
      there is none, every bare `pssh` descendant. */
  function GlobalPsshElements(root: Element): seq<Element> {
    var cenc := FindAllDeep(root, CencPsshTag);
    if cenc != [] then cenc else FindAllDeep(root, BarePsshTag)
  }

  /** An element the global loop takes: its text is usable. */
  predicate HasUsableText(e: Element) {
    UsableText(e.text).Some?
  }

  /** Strategy five: the text of the first of these elements whose text is usable. */
  function FirstUsable(es: seq<Element>): (r: Option<string>)
    ensures r.Some? ==> Stripped(r.value)
    ensures r.None? ==> forall i :: 0 <= i < |es| ==> UsableText(es[i].text).None?
  {
    if es == [] then None
    else if HasUsableText(es[0]) then UsableText(es[0].text)
    else
      var r := FirstUsable(es[1..]);
      assert forall i :: 1 <= i < |es| ==> es[i] == es[1..][i - 1];
      r
  }

  /** The global loop finds nothing exactly when no text is usable, and otherwise the text of
      the first element whose text is. */
  lemma {:induction false} FirstUsableFirst(es: seq<Element>)
    ensures FirstUsable(es).None? <==> FirstIndex(es, HasUsableText).None?
    ensures FirstUsable(es).Some? ==> FirstUsable(es) == UsableText(es[FirstIndex(es, HasUsableText).value].text)
  {
    if es != [] && !HasUsableText(es[0]) {
      FirstUsableFirst(es[1..]);
    }
  }

  /** Strategies four and five as the source evidently intends them: a text is taken only when
      `strip()` leaves something. */
  function TreeSearch(root: Element): (r: Option<string>)
    ensures r.Some? ==> Stripped(r.value)
  {
    OrElse(DescriptorsSearch(WidevineDescriptors(root)), FirstUsable(GlobalPsshElements(root)))
  }

  // ---------------------------------------------------------------------------------------
  // Strategies four and five as written
  // ---------------------------------------------------------------------------------------

  /** Where an as-written loop stands: finished with its `pssh_data`, or still going with the
      `pssh_data` assigned so far. */
  datatype Scan = Done(value: Option<string>) | Going(value: Option<string>)

  /** `pssh_data = elem.text; if pssh_data and pssh_data.strip(): pssh_data = pssh_data.strip(); break`:
      a blank text is kept in `pssh_data` and the loop goes on. */
  function ReadText(t: Option<string>): Scan {
    match UsableText(t)
    case Some(v) => Done(Some(v))
    case None => Going(t)
  }

  /** The child loop of main.py:280-285 as written. */
  function ChildScanAsWritten(cs: seq<Element>, cur: Option<string>): Scan {
    if cs == [] then Going(cur)
    else if PsshLikeTag(cs[0].tag) then
      match ReadText(cs[0].text)
      case Done(v) => Done(v)
      case Going(v) => ChildScanAsWritten(cs[1..], v)
    else ChildScanAsWritten(cs[1..], cur)
  }

  /** One pass of the descriptor loop body (main.py:266-288) as written; it ends the loop when
      `pssh_data` is truthy, which a whitespace-only text is. */
  function DescriptorAsWritten(cp: Element, cur: Option<string>): Scan {
    var cenc := FindAllDeep(cp, CencPsshTag);
    var s1 := if cenc != [] then ReadText(cenc[0].text) else Going(cur);
    if s1.Done? then s1
    else
      var bare := FindAllDeep(cp, BarePsshTag);
      var s2 := if bare != [] then ReadText(bare[0].text) else Going(s1.value);
      if s2.Done? then s2
      else
        match ChildScanAsWritten(cp.children, s2.value)
        case Done(v) => Done(v)
        case Going(v) => if Truthy(v) then Done(v) else Going(v)
  }

  function DescriptorsAsWritten(cps: seq<Element>, cur: Option<string>): Option<string> {
    if cps == [] then cur
    else
      match DescriptorAsWritten(cps[0], cur)
      case Done(v) => v
      case Going(v) => DescriptorsAsWritten(cps[1..], v)
  }

  /** The global loop of main.py:296-300 as written: when no text is usable, `pssh_data` is
      left holding the last element's text. */
  function GlobalAsWritten(es: seq<Element>, cur: Option<string>): Option<string> {
    if es == [] then cur
    else
      match ReadText(es[0].text)
      case Done(v) => v
      case Going(v) => GlobalAsWritten(es[1..], v)
  }

  /** Strategies four and five exactly as main.py:236-302 runs them, with `None` for a falsy
      outcome. */
  function TreeSearchAsWritten(root: Element): Option<string> {
    var d := DescriptorsAsWritten(WidevineDescriptors(root), None);
    if Truthy(d) then d
    else
      var g := GlobalAsWritten(GlobalPsshElements(root), d);
      if Truthy(g) then g else None
  }

  /** A whitespace-only string: truthy in Python, empty once stripped. */
  predicate Blank(v: Option<string>) {
    v.Some? && v.value != "" && AllSpace(v.value)
  }

  lemma {:induction false} ChildScanAgrees(cs: seq<Element>, cur: Option<string>)
    ensures ChildScanAsWritten(cs, cur).Done? <==> ChildSearch(cs).Some?
    ensures ChildScanAsWritten(cs, cur).Done? ==> ChildScanAsWritten(cs, cur).value == ChildSearch(cs)
    ensures ChildScanAsWritten(cs, cur).Going? ==>
      ChildScanAsWritten(cs, cur).value == cur || UsableText(ChildScanAsWritten(cs, cur).value).None?
  {
    if cs != [] {
      if PsshLikeTag(cs[0].tag) {
        match ReadText(cs[0].text)
        case Done(v) =>
        case Going(v) => ChildScanAgrees(cs[1..], v);
      } else {
        ChildScanAgrees(cs[1..], cur);
      }
    }
  }

  lemma DescriptorAgrees(cp: Element, cur: Option<string>)
    requires !Truthy(cur)
    ensures DescriptorAsWritten(cp, cur).Going? ==> DescriptorPssh(cp).None? && !Truthy(DescriptorAsWritten(cp, cur).value)
    ensures DescriptorAsWritten(cp, cur).Done? ==> Truthy(DescriptorAsWritten(cp, cur).value)
    ensures DescriptorAsWritten(cp, cur).Done? ==>
      DescriptorAsWritten(cp, cur).value == DescriptorPssh(cp) || (DescriptorPssh(cp).None? && Blank(DescriptorAsWritten(cp, cur).value))
  {
    var cenc := FindAllDeep(cp, CencPsshTag);
    var s1 := if cenc != [] then ReadText(cenc[0].text) else Going(cur);
    if s1.Going? {
      var bare := FindAllDeep(cp, BarePsshTag);
      var s2 := if bare != [] then ReadText(bare[0].text) else Going(s1.value);
      if s2.Going? {
        ChildScanAgrees(cp.children, s2.value);
      }
    }
  }

  /** As written, the descriptor loop either agrees with the intended search or stops early on
      a whitespace-only text; a falsy outcome means the intended search finds nothing either. */
  lemma {:induction false} DescriptorsAgree(cps: seq<Element>, cur: Option<string>)
    requires !Truthy(cur)
    ensures !Truthy(DescriptorsAsWritten(cps, cur)) ==> DescriptorsSearch(cps).None?
    ensures Truthy(DescriptorsAsWritten(cps, cur)) ==>
      DescriptorsAsWritten(cps, cur) == DescriptorsSearch(cps) || Blank(DescriptorsAsWritten(cps, cur))
  {
    if cps != [] {
      DescriptorAgrees(cps[0], cur);
      match DescriptorAsWritten(cps[0], cur)
      case Done(v) =>
      case Going(v) => DescriptorsAgree(cps[1..], v);
    }
  }

  /** As written, the global loop finds the first usable text when there is one; otherwise it is
      left with the incoming value or some unusable text. */
  lemma {:induction false} GlobalAgrees(es: seq<Element>, cur: Option<string>)
    ensures FirstUsable(es).Some? ==> GlobalAsWritten(es, cur) == FirstUsable(es)
    ensures FirstUsable(es).None? ==>
      GlobalAsWritten(es, cur) == cur || UsableText(GlobalAsWritten(es, cur)).None?
  {
    if es != [] {
      match ReadText(es[0].text)
      case Done(v) =>
      case Going(v) => GlobalAgrees(es[1..], v);
    }
  }

  /** The tree strategies as written differ from the intended ones only by returning a
      whitespace-only text as the PSSH. */
  lemma AsWrittenDiffersOnlyOnBlank(root: Element)
    ensures TreeSearchAsWritten(root) != TreeSearch(root) ==> Blank(TreeSearchAsWritten(root))
  {
    var d := DescriptorsAsWritten(WidevineDescriptors(root), None);
    DescriptorsAgree(WidevineDescriptors(root), None);
    if !Truthy(d) {
      GlobalAgrees(GlobalPsshElements(root), d);
    }
  }

  /** The key ID the example manifest carries. */
  const ExampleKid: string := "00000000-0000-0000-0000-000000000001"

  /** A manifest with two Widevine descriptors (one per adaptation set, say): the first carries
      the `cenc:default_KID` and a whitespace-only `cenc:pssh`, the second a filled one. */
  function BlankThenRealManifest(): Element {
    var widevine := [Attr("schemeIdUri", WidevineUuid)];
    var first := [Attr(KeyId.CencKidName, ExampleKid)] + widevine;
    Element(MpdNs + "MPD", [], None, [
      Element(MpdNs + "ContentProtection", first, None, [Element(CencPsshTag, [], Some(" "), [])]),
      Element(MpdNs + "ContentProtection", widevine, None, [Element(CencPsshTag, [], Some("AAAA"), [])])
    ])
  }

  /** An element with one child and no grandchildren is walked as itself, then that child. */
  lemma ParentOfLeaf(p: Element)
    requires |p.children| == 1 && p.children[0].children == []
    ensures Preorder(p) == [p, p.children[0]]
  {
    var c := p.children[0];
    assert Preorder(c) == [c] + PreorderAll([]);
    assert p.children[1..] == [];
    assert PreorderAll(p.children) == Preorder(c) + PreorderAll([]);
  }

  /** The walk of the example manifest: each descriptor, then its one child. */
  lemma BlankThenRealWalk()
    ensures Descendants(BlankThenRealManifest()) ==
      [BlankThenRealManifest().children[0], BlankThenRealManifest().children[0].children[0],
       BlankThenRealManifest().children[1], BlankThenRealManifest().children[1].children[0]]
  {
    var m := BlankThenRealManifest();
    var cp1, cp2 := m.children[0], m.children[1];
    ParentOfLeaf(cp1);
    ParentOfLeaf(cp2);
    assert m.children[1..] == [cp2] && m.children[1..][1..] == [];
    assert PreorderAll(m.children[1..]) == Preorder(cp2) + PreorderAll([]);
    assert Descendants(m) == Preorder(cp1) + PreorderAll(m.children[1..]);
  }

  /** The first descriptor query finds both descriptors of the example manifest. */
  lemma BlankThenRealDescriptors()
    ensures WidevineDescriptors(BlankThenRealManifest()) == BlankThenRealManifest().children
  {
    var m := BlankThenRealManifest();
    var cp1, cp2 := m.children[0], m.children[1];
    var blank, filled := cp1.children[0], cp2.children[0];
    BlankThenRealWalk();
    var all := [cp1, blank, cp2, filled];
    assert Descendants(m) == all;
    var q := DescriptorQueries[0];
    ExampleAnswers();
    var p := AnswerTest(q);
    assert Filter(all[3..], p) == [];
    assert Filter(all[2..], p) == [cp2];
    assert Filter(all[1..], p) == [cp2];
    assert Filter(all, p) == [cp1, cp2];
  }

  /** The first descriptor query answers to the two descriptors and to nothing else. */
  lemma ExampleAnswers()
    ensures var m := BlankThenRealManifest();
      Answers(DescriptorQueries[0], m.children[0]) && Answers(DescriptorQueries[0], m.children[1])
      && !Answers(DescriptorQueries[0], m.children[0].children[0])
      && !Answers(DescriptorQueries[0], m.children[1].children[0])
  {
    var m := BlankThenRealManifest();
    var q := DescriptorQueries[0];
    assert m.children[0].attrs[0].name != "schemeIdUri" by {
      assert |m.children[0].attrs[0].name| != |"schemeIdUri"|;
    }
    assert GetAttr(m.children[0].attrs, "schemeIdUri") == Some(WidevineUuid);
    assert |q.tag| != |m.children[0].children[0].tag|;
  }

  lemma BlankDescriptorAsWritten()
    ensures DescriptorAsWritten(BlankThenRealManifest().children[0], None) == Done(Some(" "))
    ensures DescriptorPssh(BlankThenRealManifest().children[0]) == None
  {
    var cp1 := BlankThenRealManifest().children[0];
    var blank := cp1.children[0];
    assert Descendants(blank) == [];
    assert Preorder(blank) == [blank];
    assert Descendants(cp1) == [blank];
    assert |CencPsshTag| != |BarePsshTag|;
    assert FindAllDeep(cp1, CencPsshTag) == [blank];
    assert FindAllDeep(cp1, BarePsshTag) == [];
    assert AsciiLower(CencPsshTag)[|CencNs|..|CencNs| + 4] == "pssh";
    assert OccursAt(AsciiLower(CencPsshTag), "pssh", |CencNs|);
    assert PsshLikeTag(CencPsshTag);
    assert AllSpace(" ");
    assert UsableText(Some(" ")) == None;
    assert ChildScanAsWritten(cp1.children[1..], Some(" ")) == Going(Some(" "));
    assert FirstElementText(FindAllDeep(cp1, CencPsshTag)) == None;
    assert FirstElementText(FindAllDeep(cp1, BarePsshTag)) == None;
    assert ChildSearch(cp1.children[1..]) == None;
    assert ChildSearch(cp1.children) == None;
  }

  lemma FilledDescriptor()
    ensures DescriptorPssh(BlankThenRealManifest().children[1]) == Some("AAAA")
  {
    var cp2 := BlankThenRealManifest().children[1];
    var filled := cp2.children[0];
    assert Descendants(filled) == [];
    assert Preorder(filled) == [filled];
    assert Descendants(cp2) == [filled];
    assert FindAllDeep(cp2, CencPsshTag) == [filled];
    assert !IsSpace('A');
    assert TrimStart("AAAA") == "AAAA";
    assert TrimEnd("AAAA") == "AAAA";
    assert UsableText(Some("AAAA")) == Some("AAAA");
  }

  /** On that manifest the code as written returns the blank text as the PSSH, while the
      evidently intended search returns the second descriptor's data. */
  lemma BlankPsshReturnedAsWritten()
    ensures TreeSearchAsWritten(BlankThenRealManifest()) == Some(" ")
    ensures TreeSearch(BlankThenRealManifest()) == Some("AAAA")
  {
    var m := BlankThenRealManifest();
    BlankThenRealDescriptors();
    BlankDescriptorAsWritten();
    FilledDescriptor();
    assert DescriptorsSearch(m.children[1..]) == Some("AAAA");
  }

  // ---------------------------------------------------------------------------------------
  // The cascade
  // ---------------------------------------------------------------------------------------

  /** What `extract_mpd_info` returns: `(key_id, pssh_data)`. */
  datatype MpdInfo = MpdInfo(keyId: Option<string>, pssh: Option<string>)

  /** The PSSH cascade in its fixed order: the `<cenc:pssh` expression, the bare `<pssh`
      expression, the literal scan, the Widevine descriptors, the global search. A strategy is
      consulted only when every earlier one found nothing. */
  function PsshOf(raw: string, root: Element): Option<string> {
    OrElse(RegexStrategy(raw, CencOpen, CencClose),
      OrElse(RegexStrategy(raw, BareOpen, BareClose),
        OrElse(LiteralScan(raw), TreeSearch(root))))
  }

  /** The result of `extract_mpd_info` on the manifest text `raw` parsed as `root`: no PSSH search
      without a key ID, and a PSSH is always a non-empty stripped text. */
  function MpdInfoOf(raw: string, root: Element): (r: MpdInfo)
    ensures r.keyId == KeyId.KeyIdOf(root)
    ensures r.keyId.None? ==> r.pssh.None?
    ensures r.pssh.Some? ==> Stripped(r.pssh.value)
    ensures r.keyId.Some? && r.pssh.None? ==>
      forall e :: e in GlobalPsshElements(root) ==> UsableText(e.text).None?
  {
    match KeyId.KeyIdOf(root)
    case None => MpdInfo(None, None)
    case Some(k) => MpdInfo(Some(k), PsshOf(raw, root))
  }

  /** The PSSH cascade as written: the text strategies are unaffected, the tree strategies are
      `TreeSearchAsWritten`. */
  function PsshOfAsWritten(raw: string, root: Element): Option<string> {
    OrElse(RegexStrategy(raw, CencOpen, CencClose),
      OrElse(RegexStrategy(raw, BareOpen, BareClose),
        OrElse(LiteralScan(raw), TreeSearchAsWritten(root))))
  }

  /** `extract_mpd_info` exactly as main.py:174-311 computes it. */
  function MpdInfoAsWritten(raw: string, root: Element): (r: MpdInfo)
    ensures r.keyId == KeyId.KeyIdOf(root)
    ensures r.keyId.None? ==> r.pssh.None?
  {
    match KeyId.KeyIdOf(root)
    case None => MpdInfo(None, None)
    case Some(k) => MpdInfo(Some(k), PsshOfAsWritten(raw, root))
  }

  /** The whole of `extract_mpd_info` as written agrees with the corrected one on the key ID, and
      on the PSSH except when it returns a whitespace-only text. */
  lemma MpdInfoDiffersOnlyOnBlank(raw: string, root: Element)
    ensures MpdInfoAsWritten(raw, root).keyId == MpdInfoOf(raw, root).keyId
    ensures MpdInfoAsWritten(raw, root) != MpdInfoOf(raw, root) ==>
      Blank(MpdInfoAsWritten(raw, root).pssh) && MpdInfoOf(raw, root).pssh == TreeSearch(root)
  {
    AsWrittenDiffersOnlyOnBlank(root);
  }

  /** The key-ID loops stop at the first descriptor of the example manifest. */
  lemma ExampleKeyId()
    ensures KeyId.KeyIdOf(BlankThenRealManifest()) == Some(ExampleKid)
  {
    var m := BlankThenRealManifest();
    var cp1 := m.children[0];
    assert Preorder(m)[1..][0] == cp1 by {
      BlankThenRealWalk();
    }
    assert KeyId.StopValue(m) == None;
    assert |cp1.attrs[0].name| != |KeyId.ExactKidName| && cp1.attrs[1].name[0] != KeyId.ExactKidName[0];
    assert GetAttr(cp1.attrs, KeyId.ExactKidName) == None;
    assert OccursAt(cp1.attrs[0].name, "default_KID", |CencNs|);
    assert KeyId.MentionsKid(cp1.attrs[0]);
    assert KeyId.StopValue(cp1) == Some(ExampleKid);
  }

  /** A manifest text whose first `<cenc:pssh` opens a `<cenc:pssh> </cenc:pssh>` element at
      `p`, and which holds no bare `<pssh`: every text strategy finds nothing. */
  lemma BlankFirstText(raw: string, p: nat)
    requires OccursAt(raw, BlankPsshText, p)
    requires forall j :: 0 <= j < p ==> !OccursAt(raw, CencOpen, j)
    requires !Contains(raw, BareOpen)
    ensures RegexStrategy(raw, CencOpen, CencClose) == None
    ensures RegexStrategy(raw, BareOpen, BareClose) == None
    ensures LiteralScan(raw) == None
  {
    BlankTagParts(raw, p);
    assert Find(raw, CencOpen, 0) == Some(p);
    BlankRegex(raw, p);
    FirstOpeningDecides(raw, BareOpen, BareClose);
    BlankLiteral(raw, p);
  }

  /** The pieces of a blank `cenc:pssh` element at `p`. */
  lemma BlankTagParts(raw: string, p: nat)
    requires OccursAt(raw, BlankPsshText, p)
    ensures OccursAt(raw, CencOpen, p) && OccursAt(raw, LiteralOpen, p)
    ensures Find(raw, ">", p + |CencOpen|) == Some(p + 10)
    ensures Find(raw, CencClose, p + |LiteralOpen|) == Some(p + 12)
    ensures raw[p + 11..p + 12] == " "
  {
    var w := BlankPsshText;
    assert raw[p..p + |w|] == w;
    assert raw[p..p + 10] == w[..10] == CencOpen;
    assert raw[p..p + 11] == w[..11] == LiteralOpen;
    assert raw[p + 10..p + 11] == ">";
    assert raw[p + 11] == ' ';
    assert raw[p + 12..p + 24] == w[12..] == CencClose;
    assert raw[p + 11..p + 12] == " ";
  }

  /** The `<cenc:pssh` expression matches the blank element and strips it to nothing. */
  lemma BlankRegex(raw: string, p: nat)
    requires Find(raw, CencOpen, 0) == Some(p)
    requires Find(raw, ">", p + |CencOpen|) == Some(p + 10)
    requires Find(raw, CencClose, p + |LiteralOpen|) == Some(p + 12)
    requires raw[p + 11..p + 12] == " "
    ensures RegexStrategy(raw, CencOpen, CencClose) == None
  {
    assert MatchAt(raw, CencOpen, CencClose, p) == Some(" ");
    FirstOpeningDecides(raw, CencOpen, CencClose);
    assert AllSpace(" ");
  }

  /** The literal scan starts at the same element and finds only the blank. */
  lemma BlankLiteral(raw: string, p: nat)
    requires OccursAt(raw, LiteralOpen, p)
    requires forall j :: 0 <= j < p ==> !OccursAt(raw, CencOpen, j)
    requires Find(raw, CencClose, p + |LiteralOpen|) == Some(p + 12)
    requires raw[p + 11..p + 12] == " "
    ensures LiteralScan(raw) == None
  {
    forall j | 0 <= j < p ensures !OccursAt(raw, LiteralOpen, j) {
      if OccursAt(raw, LiteralOpen, j) {
        assert LiteralOpen == CencOpen + ">";
        OccursSplit(raw, CencOpen, ">", j);
      }
    }
    assert FirstLiteralOpen(raw, p);
    LiteralScanFromFirstOpen(raw);
    assert AllSpace(" ");
    assert ScanFrom(raw, p + |LiteralOpen|) == StripToOption(" ");
  }

  /** The opening tag, a single space, and the closing tag. */
  const BlankPsshText: string := "<cenc:pssh> </cenc:pssh>"

  /** On any text of the example manifest that starts its first `cenc:pssh` element blank, the
      whole of `extract_mpd_info` as written returns the key ID with the blank text as the PSSH,
      while the corrected cascade returns the second descriptor's data. */
  lemma BlankPsshExtractedAsWritten(raw: string, p: nat)
    requires OccursAt(raw, BlankPsshText, p)
    requires forall j :: 0 <= j < p ==> !OccursAt(raw, CencOpen, j)
    requires !Contains(raw, BareOpen)
    ensures MpdInfoAsWritten(raw, BlankThenRealManifest()) == MpdInfo(Some(ExampleKid), Some(" "))
    ensures MpdInfoOf(raw, BlankThenRealManifest()) == MpdInfo(Some(ExampleKid), Some("AAAA"))
  {
    ExampleKeyId();
    BlankFirstText(raw, p);
    BlankPsshReturnedAsWritten();
  }

  /** The query loop of main.py:252-263: the elements of the first query that finds any. */
  method FindWidevineDescriptors(root: Element) returns (descriptors: seq<Element>)
    ensures descriptors == WidevineDescriptors(root)
  {
    descriptors := [];
    var p := 0;
    while p < |DescriptorQueries|
      invariant 0 <= p <= |DescriptorQueries|
      invariant descriptors == []
      invariant WidevineDescriptors(root) == FirstAnswer(root, DescriptorQueries[p..])
    {
      var elements := RunQuery(root, DescriptorQueries[p]);
      if elements != [] {
        descriptors := elements;
        break;
      }
      assert DescriptorQueries[p..][1..] == DescriptorQueries[p + 1..];
      p := p + 1;
    }
  }

  /** The child loop of main.py:281-288: the first `pssh`-like child with a usable text. */
  method SearchChildren(children: seq<Element>) returns (pssh: Option<string>)
    ensures pssh == ChildSearch(children)
  {
    pssh := None;
    var c := 0;
    while c < |children|
      invariant 0 <= c <= |children|
      invariant pssh.None?
      invariant ChildSearch(children) == ChildSearch(children[c..])
    {
      var child := children[c];
      if PsshLikeTag(child.tag) {
        pssh := UsableText(child.text);
        if pssh.Some? {
          break;
        }
      }
      assert children[c..][1..] == children[c + 1..];
      c := c + 1;
    }
  }

  /** One round of the descriptor loop (main.py:266-288): the `cenc:pssh` lookup, the bare
      `pssh` lookup, then the children, taking a text only when it is not blank. */
  method SearchDescriptor(cp: Element) returns (pssh: Option<string>)
    ensures pssh == DescriptorPssh(cp)
  {
    var cenc := FindAllDeep(cp, CencPsshTag);
    pssh := FirstElementText(cenc);
    if pssh.None? {
      var bare := FindAllDeep(cp, BarePsshTag);
      pssh := FirstElementText(bare);
    }
    if pssh.None? {
      pssh := SearchChildren(cp.children);
    }
  }

  /** The descriptor loop of main.py:265-288: the first descriptor that yields a text. */
  method SearchDescriptors(descriptors: seq<Element>) returns (pssh: Option<string>)
    ensures pssh == DescriptorsSearch(descriptors)
  {
    pssh := None;
    var d := 0;
    while d < |descriptors|
      invariant 0 <= d <= |descriptors|
      invariant pssh.None?
      invariant DescriptorsSearch(descriptors) == DescriptorsSearch(descriptors[d..])
    {
      pssh := SearchDescriptor(descriptors[d]);
      if pssh.Some? {
        break;
      }
      assert descriptors[d..][1..] == descriptors[d + 1..];
      d := d + 1;
    }
  }

  /** The global loop of main.py:290-302, taking a text only when it is not blank. */
  method SearchGlobal(root: Element) returns (pssh: Option<string>)
    ensures pssh == FirstUsable(GlobalPsshElements(root))
  {
    var elems := FindAllDeep(root, CencPsshTag);
    if elems == [] {
      elems := FindAllDeep(root, BarePsshTag);
    }
    pssh := None;
    var i := 0;
    while i < |elems|
      invariant 0 <= i <= |elems|
      invariant pssh.None?
      invariant FirstUsable(elems) == FirstUsable(elems[i..])
    {
      pssh := UsableText(elems[i].text);
      if pssh.Some? {
        break;
      }
      assert elems[i..][1..] == elems[i + 1..];
      i := i + 1;
    }
  }

  /** `extract_mpd_info` after the download and the parse: the key-ID loops, then the PSSH
      strategies one after another while `pssh_data` is still falsy. */
  method ExtractMpdInfo(raw: string, root: Element) returns (info: MpdInfo)
    ensures info == MpdInfoOf(raw, root)
  {
    var keyId := KeyId.FindKeyId(root);
    if keyId.None? {
      return MpdInfo(None, None);
    }
    var pssh := RegexStrategy(raw, CencOpen, CencClose);
    if pssh.None? {
      pssh := RegexStrategy(raw, BareOpen, BareClose);
    }
    if pssh.None? {
      pssh := LiteralScan(raw);
    }
    if pssh.None? {
      var descriptors := FindWidevineDescriptors(root);
      pssh := SearchDescriptors(descriptors);
    }
    if pssh.None? {
      pssh := SearchGlobal(root);
    }
    info := MpdInfo(keyId, pssh);
  }
}
