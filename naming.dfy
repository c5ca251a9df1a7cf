/**
 * The output file name of `download_episode` (main.py:794-843): each title part is cleaned
 * by `sanitize_filename`, the episode number is recovered from the part ID or the displayed
 * number, and the parts are put together in the Jellyfin layout or the older layout.
 */
module Naming {
  import opened Wrappers
  import opened Text

  /** `unicodedata.normalize("NFC", s)`, left abstract. */
  type Normalizer = string -> string

  /** `unicodedata.category(c)[0] == "C"` (control, format, surrogate, private-use and
      unassigned characters), left abstract. */
  type OtherCategory = char -> bool

  /** The characters of the class `[<>:"/\\|?*]`. */
  predicate Forbidden(c: char) {
    c == '<' || c == '>' || c == ':' || c == '"' || c == '/' || c == '\\' || c == '|' || c == '?' || c == '*'
  }

  /** The maximum length kept by `name[:100]`. */
  const MaxNameLength: nat := 100

  /** `"".join(char for char in s if unicodedata.category(char)[0] != "C")`. */
  function DropOther(s: string, isOther: OtherCategory): (r: string)
    ensures |r| <= |s|
    ensures forall i :: 0 <= i < |r| ==> r[i] in s && !isOther(r[i])
  {
    if s == [] then []
    else (if isOther(s[0]) then [] else [s[0]]) + DropOther(s[1..], isOther)
  }

  /** Dropping works character by character: a text made of two parts loses characters from
      each part separately and keeps the order. */
  lemma {:induction false} DropOtherAppend(a: string, b: string, isOther: OtherCategory)
    ensures DropOther(a + b, isOther) == DropOther(a, isOther) + DropOther(b, isOther)
  {
    if a == [] {
      assert a + b == b;
    } else {
      var head := if isOther(a[0]) then [] else [a[0]];
      assert (a + b)[0] == a[0] && (a + b)[1..] == a[1..] + b;
      DropOtherAppend(a[1..], b, isOther);
      assert DropOther(a + b, isOther) == head + (DropOther(a[1..], isOther) + DropOther(b, isOther));
      assert DropOther(a, isOther) == head + DropOther(a[1..], isOther);
    }
  }

  /** A single character is dropped exactly when it is in category C. */
  lemma DropOtherOne(c: char, isOther: OtherCategory)
    ensures DropOther([c], isOther) == if isOther(c) then [] else [c]
  {
    assert [c][1..] == [];
    assert DropOther([c], isOther) == (if isOther(c) then [] else [c]) + DropOther([], isOther);
  }

  /** Every character not in category C is kept, in its place: the text before it loses what it
      loses, and it follows. */
  lemma DropOtherKeeps(pre: string, c: char, post: string, isOther: OtherCategory)
    requires !isOther(c)
    ensures DropOther(pre + [c] + post, isOther) == DropOther(pre, isOther) + [c] + DropOther(post, isOther)
  {
    DropOtherAppend(pre + [c], post, isOther);
    DropOtherAppend(pre, [c], isOther);
    DropOtherOne(c, isOther);
  }

  /** `re.sub(forbidden_chars, "_", s)`. */
  function ReplaceForbidden(s: string): (r: string)
    ensures |r| == |s|
    ensures forall i :: 0 <= i < |s| ==> r[i] == if Forbidden(s[i]) then '_' else s[i]
  {
    if s == [] then [] else [if Forbidden(s[0]) then '_' else s[0]] + ReplaceForbidden(s[1..])
  }

  /** A character the cleaning may leave: the replacement `_`, or a character of the
      normalised source that is not in category C. */
  predicate Kept(c: char, src: string, isOther: OtherCategory) {
    c == '_' || (c in src && !isOther(c))
  }

  /** The cleaning steps applied to the normalised text: drop category-C characters, replace
      forbidden ones by `_`, strip. */
  function CleanText(src: string, isOther: OtherCategory): string {
    Strip(ReplaceForbidden(DropOther(src, isOther)))
  }

  /** The test a cleaned character passes: not forbidden, and kept. */
  function CleanChar(src: string, isOther: OtherCategory): char -> bool {
    c => !Forbidden(c) && Kept(c, src, isOther)
  }

  /** After dropping category-C characters and replacing forbidden ones, every character passes
      the test. */
  lemma ReplacedClean(src: string, isOther: OtherCategory)
    ensures var replaced := ReplaceForbidden(DropOther(src, isOther));
      forall j :: 0 <= j < |replaced| ==> CleanChar(src, isOther)(replaced[j])
  {
    var kept := DropOther(src, isOther);
    var replaced := ReplaceForbidden(kept);
    forall j | 0 <= j < |replaced| ensures CleanChar(src, isOther)(replaced[j]) {
      assert kept[j] in src && !isOther(kept[j]);
    }
  }

  /** Every character left after the cleaning steps is kept and not forbidden, and no whitespace
      is left at either end. */
  lemma CleanTextChars(src: string, isOther: OtherCategory)
    ensures forall i :: 0 <= i < |CleanText(src, isOther)| ==>
      !Forbidden(CleanText(src, isOther)[i]) && Kept(CleanText(src, isOther)[i], src, isOther)
    ensures CleanText(src, isOther) != [] ==> Stripped(CleanText(src, isOther))
  {
    ReplacedClean(src, isOther);
    StripKeeps(ReplaceForbidden(DropOther(src, isOther)), CleanChar(src, isOther));
  }

  /** The first four steps of `sanitize_filename`: normalise, then clean. What is left is made
      of kept characters, has no forbidden character and no whitespace at either end. */
  function Cleaned(name: string, nfc: Normalizer, isOther: OtherCategory): (r: string)
    ensures forall i :: 0 <= i < |r| ==> !Forbidden(r[i]) && Kept(r[i], nfc(name), isOther)
    ensures r != [] ==> Stripped(r)
  {
    CleanTextChars(nfc(name), isOther);
    CleanText(nfc(name), isOther)
  }

  /** The last steps of `sanitize_filename`: an empty result becomes `Unknown`, and the name is
      cut to its first 100 characters. */
  function NameOrUnknown(cleaned: string): (r: string)
    requires forall i :: 0 <= i < |cleaned| ==> !Forbidden(cleaned[i])
    requires cleaned != [] ==> Stripped(cleaned)
    ensures 1 <= |r| <= MaxNameLength
    ensures forall i :: 0 <= i < |r| ==> !Forbidden(r[i])
    ensures !IsSpace(r[0])
    ensures cleaned == [] ==> r == "Unknown"
    ensures cleaned != [] ==> r <= cleaned && (|cleaned| <= MaxNameLength ==> r == cleaned)
    ensures |cleaned| > MaxNameLength ==> r == cleaned[..MaxNameLength]
  {
    if cleaned == "" then
      "Unknown"
    else if |cleaned| > MaxNameLength then
      cleaned[..MaxNameLength]
    else
      cleaned
  }

  /** `sanitize_filename`: a non-empty name of at most 100 characters with no forbidden
      character and no whitespace in front, made of `_` and characters of the normalised input
      that are not in category C, or else the stand-in `Unknown`. */
  function SanitizeFilename(name: string, nfc: Normalizer, isOther: OtherCategory): (r: string)
    ensures 1 <= |r| <= MaxNameLength
    ensures forall i :: 0 <= i < |r| ==> !Forbidden(r[i])
    ensures !IsSpace(r[0])
    ensures r == "Unknown" || forall i :: 0 <= i < |r| ==> Kept(r[i], nfc(name), isOther)
    ensures Cleaned(name, nfc, isOther) == [] ==> r == "Unknown"
  {
    NameOrUnknown(Cleaned(name, nfc, isOther))
  }

  /** A name that is already clean comes back unchanged. */
  lemma CleanNameUnchanged(name: string, nfc: Normalizer, isOther: OtherCategory)
    requires nfc(name) == name && Stripped(name) && |name| <= MaxNameLength
    requires forall i :: 0 <= i < |name| ==> !Forbidden(name[i]) && !isOther(name[i])
    ensures SanitizeFilename(name, nfc, isOther) == name
  {
    DropNothing(name, isOther);
    assert ReplaceForbidden(name) == name;
    StripStripped(name);
  }

  /** A string with no category-C character loses nothing. */
  lemma {:induction false} DropNothing(s: string, isOther: OtherCategory)
    requires forall i :: 0 <= i < |s| ==> !isOther(s[i])
    ensures DropOther(s, isOther) == s
  {
    if s != [] {
      DropNothing(s[1..], isOther);
    }
  }

  /** `part_id[-3:]`: the last three characters, or the whole ID when it is shorter. */
  function IdTail(partId: string): (r: string)
    ensures |r| <= 3 && |r| <= |partId| && partId == partId[..|partId| - |r|] + r
    ensures |partId| >= 3 ==> |r| == 3
    ensures |partId| < 3 ==> r == partId
  {
    if |partId| < 3 then partId else partId[|partId| - 3..]
  }

  /** The longest run of ASCII digits at the front of `s`. */
  function LeadingDigits(s: string): (r: string)
    ensures r <= s && AllDigits(r)
    ensures |r| < |s| ==> !IsDigit(s[|r|])
  {
    if s == [] || !IsDigit(s[0]) then [] else [s[0]] + LeadingDigits(s[1..])
  }

  /** `d` is the first maximal run of digits in `s`, starting at `i`: no digit before it, and
      the end or a non-digit after it. */
  predicate FirstRun(s: string, i: int, d: string) {
    0 <= i && i + |d| <= |s| && s[i..i + |d|] == d && d != [] && AllDigits(d)
    && (forall j :: 0 <= j < i ==> !IsDigit(s[j]))
    && (i + |d| == |s| || !IsDigit(s[i + |d|]))
  }

  /** `re.findall(r"\d+", s)[0]`: the first run of digits in `s`, when there is one. */
  function FirstNumber(s: string): (r: Option<string>)
    ensures r.None? <==> forall i :: 0 <= i < |s| ==> !IsDigit(s[i])
    ensures r.Some? ==> r.value != [] && AllDigits(r.value)
    ensures r.Some? ==> exists i :: FirstRun(s, i, r.value)
  {
    match FirstIndex(s, IsDigit)
    case None => None
    case Some(i) =>
      var d := LeadingDigits(s[i..]);
      assert d[0] == s[i];
      assert s[i..i + |d|] == s[i..][..|d|] == d;
      assert FirstRun(s, i, d);
      Some(d)
  }

  /** `extract_episode_number`: the number the last three characters of the part ID write;
      failing that, the first number in the displayed episode number; failing that, 1. A number
      read from the part ID is below 1000. */
  function EpisodeNumber(partId: string, dispNumber: string): (r: nat)
    ensures ParseNat(IdTail(partId)).Some? ==> r < 1000
    ensures ParseNat(IdTail(partId)).Some? ==> r == DecimalValue(IdTail(partId))
    ensures ParseNat(IdTail(partId)).None? && FirstNumber(dispNumber).Some? ==>
      r == DecimalValue(FirstNumber(dispNumber).value)
    ensures ParseNat(IdTail(partId)).None? && (forall i :: 0 <= i < |dispNumber| ==> !IsDigit(dispNumber[i])) ==> r == 1
  {
    match ParseNat(IdTail(partId))
    case Some(n) =>
      DecimalBelow(IdTail(partId));
      n
    case None =>
      match FirstNumber(dispNumber)
      case Some(digits) => DecimalValue(digits)
      case None => 1
  }

  /** A part ID ending in three digits gives the number they write, whatever is displayed. */
  lemma EpisodeFromPartId(prefix: string, digits: string, dispNumber: string)
    requires |digits| == 3 && AllDigits(digits)
    ensures EpisodeNumber(prefix + digits, dispNumber) == DecimalValue(digits)
  {
    var partId := prefix + digits;
    assert IdTail(partId) == partId[|partId| - 3..] == digits;
  }

  /** The example of the source's comment: part `22435001` is episode 1. */
  lemma EpisodeOfExamplePart(dispNumber: string)
    ensures EpisodeNumber("22435001", dispNumber) == 1
  {
    EpisodeFromPartId("22435", "001", dispNumber);
  }

  /** When the part ID does not end in a number, the first number in the displayed episode
      number is used: text without digits, then `n`, then the end or a non-digit gives `n`. */
  lemma EpisodeFromDisplay(partId: string, before: string, n: nat, after: string)
    requires ParseNat(IdTail(partId)).None?
    requires forall i :: 0 <= i < |before| ==> !IsDigit(before[i])
    requires after == [] || !IsDigit(after[0])
    ensures EpisodeNumber(partId, before + NatToString(n) + after) == n
  {
    var digits := NatToString(n);
    var s := before + digits + after;
    assert s[|before|] == digits[0];
    var i := FirstIndex(s, IsDigit).value;
    assert forall j :: 0 <= j < |before| ==> s[j] == before[j];
    assert i == |before|;
    assert s[i..] == digits + after;
    LeadingDigitsOf(digits, after);
    assert FirstNumber(s) == Some(digits);
    NatToStringRoundTrip(n);
  }

  /** The leading digits of a run of digits followed by the end or a non-digit are that run. */
  lemma {:induction false} LeadingDigitsOf(digits: string, after: string)
    requires AllDigits(digits)
    requires after == [] || !IsDigit(after[0])
    ensures LeadingDigits(digits + after) == digits
  {
    if digits != [] {
      LeadingDigitsOf(digits[1..], after);
      assert (digits + after)[1..] == digits[1..] + after;
    }
  }

  /** The Jellyfin file name of main.py:828:
      `<title> - S<season:02d>E<episode:02d> - <episode title>.mp4`. */
  function JellyfinFilename(title: string, season: int, episode: nat, episodeTitle: string): (r: string)
    ensures title <= r
    ensures |r| >= |title| + 15 && r[|r| - 4..] == ".mp4"
  {
    title + " - S" + Format02(season) + "E" + Format02(episode) + " - " + episodeTitle + ".mp4"
  }

  /** For seasons and episodes below 100, the fields can be read back from a Jellyfin file name
      when the title's length is known: the season digits, `E`, the episode digits, the separator
      and the episode title sit at fixed places. */
  lemma JellyfinFields(title: string, season: int, episode: nat, episodeTitle: string)
    requires 0 <= season < 100 && episode < 100
    ensures var r := JellyfinFilename(title, season, episode, episodeTitle);
      var p := |title| + 4;
      |r| == p + 12 + |episodeTitle| &&
      r[..p] == title + " - S" &&
      AllDigits(r[p..p + 2]) && DecimalValue(r[p..p + 2]) == season && r[p + 2] == 'E' &&
      AllDigits(r[p + 3..p + 5]) && DecimalValue(r[p + 3..p + 5]) == episode &&
      r[p + 5..p + 8] == " - " && r[p + 8..|r| - 4] == episodeTitle
  {
    var r := JellyfinFilename(title, season, episode, episodeTitle);
    var p := |title| + 4;
    var s2 := Format02(season);
    var e2 := Format02(episode);
    assert r == (title + " - S") + s2 + "E" + e2 + " - " + episodeTitle + ".mp4";
    assert r[p..p + 2] == s2;
    assert r[p + 3..p + 5] == e2;
  }

  /** Two Jellyfin names for titles of the same length are equal only when season and episode
      are, for values below 100. */
  lemma JellyfinDistinct(t1: string, s1: int, e1: nat, et1: string, t2: string, s2: int, e2: nat, et2: string)
    requires 0 <= s1 < 100 && e1 < 100 && 0 <= s2 < 100 && e2 < 100 && |t1| == |t2|
    requires JellyfinFilename(t1, s1, e1, et1) == JellyfinFilename(t2, s2, e2, et2)
    ensures s1 == s2 && e1 == e2 && t1 == t2 && et1 == et2
  {
    JellyfinFields(t1, s1, e1, et1);
    JellyfinFields(t2, s2, e2, et2);
    var r := JellyfinFilename(t1, s1, e1, et1);
    assert t1 == r[..|t1|] == t2;
  }

  /** The older file name of main.py:843: `<episode number>_<episode title>.mp4`. */
  function LegacyFilename(episodeNumber: string, episodeTitle: string): (r: string)
    ensures episodeNumber + "_" <= r
    ensures |r| == |episodeNumber| + |episodeTitle| + 5 && r[|r| - 4..] == ".mp4"
  {
    episodeNumber + "_" + episodeTitle + ".mp4"
  }

  /** The test "is `_`". */
  predicate IsUnderscore(c: char) {
    c == '_'
  }

  /** When the episode number holds no `_`, it is the text before the first `_` of the older
      file name, and the episode title follows it. */
  lemma LegacyFields(episodeNumber: string, episodeTitle: string)
    requires forall i :: 0 <= i < |episodeNumber| ==> !IsUnderscore(episodeNumber[i])
    ensures var r := LegacyFilename(episodeNumber, episodeTitle);
      FirstIndex(r, IsUnderscore) == Some(|episodeNumber|) &&
      r[|episodeNumber| + 1..|r| - 4] == episodeTitle
  {
    var r := LegacyFilename(episodeNumber, episodeTitle);
    assert IsUnderscore(r[|episodeNumber|]);
    var i := FirstIndex(r, IsUnderscore).value;
    assert forall j :: 0 <= j < |episodeNumber| ==> r[j] == episodeNumber[j];
    assert i == |episodeNumber|;
  }

  /** Sanitising keeps `_`, so the older layout can give two episodes the same file name:
      episode `a_b` titled `c` and episode `a` titled `b_c` (say `1_a` titled `b` and `1` titled
      `a_b`), whenever the texts are plain and short and normalisation leaves them alone. */
  lemma LegacyCollision(a: string, b: string, c: string, nfc: Normalizer, isOther: OtherCategory)
    requires PlainName(a, isOther) && PlainName(b, isOther) && PlainName(c, isOther) && !isOther('_')
    requires |a| + |b| + |c| + 1 <= MaxNameLength
    requires nfc(a + "_" + b) == a + "_" + b && nfc(c) == c && nfc(a) == a && nfc(b + "_" + c) == b + "_" + c
    ensures LegacyFilename(SanitizeFilename(a + "_" + b, nfc, isOther), SanitizeFilename(c, nfc, isOther))
         == LegacyFilename(SanitizeFilename(a, nfc, isOther), SanitizeFilename(b + "_" + c, nfc, isOther))
  {
    PlainJoin(a, b, isOther);
    PlainJoin(b, c, isOther);
    PlainLegacyName(a + "_" + b, c, nfc, isOther);
    PlainLegacyName(a, b + "_" + c, nfc, isOther);
    LegacyShift(a, b, c);
  }

  /** Moving `_b` from the episode number to the front of the title leaves the older name as it is. */
  lemma LegacyShift(a: string, b: string, c: string)
    ensures LegacyFilename(a + "_" + b, c) == LegacyFilename(a, b + "_" + c)
  {
    assert LegacyFilename(a + "_" + b, c) == a + "_" + b + "_" + c + ".mp4";
    assert LegacyFilename(a, b + "_" + c) == a + "_" + b + "_" + c + ".mp4";
  }

  /** A non-empty text of plain characters none of which is in category C. */
  predicate PlainName(s: string, isOther: OtherCategory) {
    s != [] && forall i :: 0 <= i < |s| ==> Plain(s[i]) && !isOther(s[i])
  }

  /** Two plain names joined by `_` make a plain name. */
  lemma PlainJoin(a: string, b: string, isOther: OtherCategory)
    requires PlainName(a, isOther) && PlainName(b, isOther) && !isOther('_')
    ensures PlainName(a + "_" + b, isOther)
  {
    var s := a + "_" + b;
    assert forall i :: 0 <= i < |s| ==> s[i] == if i < |a| then a[i] else if i == |a| then '_' else b[i - |a| - 1];
  }

  /** The older file name of a plain episode number and a plain episode title is built from
      them unchanged. */
  lemma PlainLegacyName(number: string, title: string, nfc: Normalizer, isOther: OtherCategory)
    requires PlainName(number, isOther) && nfc(number) == number && |number| <= MaxNameLength
    requires PlainName(title, isOther) && nfc(title) == title && |title| <= MaxNameLength
    ensures LegacyFilename(SanitizeFilename(number, nfc, isOther), SanitizeFilename(title, nfc, isOther))
         == LegacyFilename(number, title)
  {
    PlainNameUnchanged(number, nfc, isOther);
    PlainNameUnchanged(title, nfc, isOther);
  }

  /** Neither `.` nor `..` is changed by sanitising, so a series titled `..` gets the parent of
      `output` as its directory, and one titled `.` gets `output` itself. */
  lemma DotTitlesSurvive(title: string, nfc: Normalizer, isOther: OtherCategory)
    requires title == "." || title == ".."
    requires nfc(title) == title && !isOther('.')
    ensures SanitizeFilename(title, nfc, isOther) == title
  {
    PlainNameUnchanged(title, nfc, isOther);
  }

  /** Characters that are neither whitespace nor forbidden. */
  predicate Plain(c: char) {
    c == '.' || c == '_' || ('0' <= c <= '9') || ('a' <= c <= 'z')
  }

  /** A short name of plain characters, none in category C and left alone by normalisation,
      comes back unchanged. */
  lemma PlainNameUnchanged(name: string, nfc: Normalizer, isOther: OtherCategory)
    requires PlainName(name, isOther) && nfc(name) == name && |name| <= MaxNameLength
    ensures SanitizeFilename(name, nfc, isOther) == name
  {
    assert !IsSpace(name[0]) && !IsSpace(name[|name| - 1]);
    CleanNameUnchanged(name, nfc, isOther);
  }

  /** A file name ending in `.mp4`. */
  predicate Mp4Name(s: string) {
    |s| >= 4 && s[|s| - 4..] == ".mp4"
  }

  /** A path separator on either of the systems the program runs on. */
  predicate Separator(c: char) {
    c == '/' || c == '\\'
  }

  /** A single path component: no separator inside. */
  predicate OneComponent(s: string) {
    forall i :: 0 <= i < |s| ==> !Separator(s[i])
  }

  /** Joining two texts without separators gives a text without separators. */
  lemma OneComponentJoin(a: string, b: string)
    requires OneComponent(a) && OneComponent(b)
    ensures OneComponent(a + b)
  {
    assert forall i :: 0 <= i < |a + b| ==> (a + b)[i] == if i < |a| then a[i] else b[i - |a|];
  }

  /** `f"{n:02d}"` is made of digits and perhaps a minus sign. */
  lemma Format02Component(n: int)
    ensures OneComponent(Format02(n))
  {
    var r := Format02(n);
    if n < 0 {
      assert forall i :: 1 <= i < |r| ==> r[i] == r[1..][i - 1];
    }
  }

  /** A sanitised name is one path component. */
  lemma SanitizedComponent(name: string, nfc: Normalizer, isOther: OtherCategory)
    ensures OneComponent(SanitizeFilename(name, nfc, isOther))
  {
  }

  /** `video_data.get(key, "Unknown")`. */
  function Field(videoData: map<string, string>, key: string): string {
    if key in videoData then videoData[key] else "Unknown"
  }

  /** The Jellyfin layout: `output/<title>/S<season:02d>/<Jellyfin file name>`. */
  function JellyfinPath(safeTitle: string, season: int, episode: nat, safeEpisodeTitle: string): (path: seq<string>)
    requires OneComponent(safeTitle) && OneComponent(safeEpisodeTitle)
    ensures |path| == 4 && path[0] == "output" && path[1] == safeTitle && path[2] == "S" + Format02(season)
    ensures path[3] == JellyfinFilename(safeTitle, season, episode, safeEpisodeTitle)
    ensures OneComponent(path[2]) && OneComponent(path[3])
    ensures Mp4Name(path[3])
  {
    Format02Component(season);
    OneComponentJoin("S", Format02(season));
    JellyfinComponent(safeTitle, season, episode, safeEpisodeTitle);
    var dir, file := "S" + Format02(season), JellyfinFilename(safeTitle, season, episode, safeEpisodeTitle);
    var path := ["output", safeTitle, dir, file];
    assert path[1] == safeTitle && path[2] == dir && path[3] == file;
    path
  }

  /** The older layout: `output/<title>/<episode number>_<episode title>.mp4`. */
  function LegacyPath(safeTitle: string, safeEpisodeNumber: string, safeEpisodeTitle: string): (path: seq<string>)
    requires OneComponent(safeTitle) && OneComponent(safeEpisodeNumber) && OneComponent(safeEpisodeTitle)
    ensures |path| == 3 && path[0] == "output" && path[1] == safeTitle
    ensures path[2] == LegacyFilename(safeEpisodeNumber, safeEpisodeTitle)
    ensures OneComponent(path[2])
    ensures Mp4Name(path[2])
  {
    OneComponentJoin(safeEpisodeNumber, "_");
    OneComponentJoin(safeEpisodeNumber + "_", safeEpisodeTitle);
    OneComponentJoin(safeEpisodeNumber + "_" + safeEpisodeTitle, ".mp4");
    var file := LegacyFilename(safeEpisodeNumber, safeEpisodeTitle);
    var path := ["output", safeTitle, file];
    assert path[1] == safeTitle && path[2] == file;
    path
  }

  /** The output path chosen when none is given (main.py:787-843), as its components: the
      `output` directory, the sanitised series title, in the Jellyfin layout a season directory
      `S<season:02d>`, then the file name. No component after `output` holds a path separator;
      a series title `.` or `..` still survives sanitising (`DotTitlesSurvive`). */
  function OutputPath(videoData: map<string, string>, partId: string, jellyfin: bool, season: int,
                      nfc: Normalizer, isOther: OtherCategory): (path: seq<string>)
    ensures |path| == if jellyfin then 4 else 3
    ensures path[0] == "output" && path[1] == SanitizeFilename(Field(videoData, "workTitle"), nfc, isOther)
    ensures jellyfin ==> path[2] == "S" + Format02(season)
    ensures jellyfin ==> path[3] == JellyfinFilename(path[1], season,
      EpisodeNumber(partId, Field(videoData, "partDispNumber")), SanitizeFilename(Field(videoData, "partTitle"), nfc, isOther))
    ensures !jellyfin ==> path[2] == LegacyFilename(SanitizeFilename(Field(videoData, "partDispNumber"), nfc, isOther),
      SanitizeFilename(Field(videoData, "partTitle"), nfc, isOther))
    ensures OneComponent(path[1]) && OneComponent(path[2]) && (jellyfin ==> OneComponent(path[3]))
    ensures Mp4Name(path[|path| - 1])
  {
    var title := Field(videoData, "workTitle");
    SanitizedComponent(title, nfc, isOther);
    var safeTitle := SanitizeFilename(title, nfc, isOther);
    if jellyfin then JellyfinOutput(videoData, partId, season, safeTitle, nfc, isOther)
    else LegacyOutput(videoData, safeTitle, nfc, isOther)
  }

  /** The Jellyfin branch of the default output path (main.py:825-836). */
  function JellyfinOutput(videoData: map<string, string>, partId: string, season: int, safeTitle: string,
                          nfc: Normalizer, isOther: OtherCategory): (path: seq<string>)
    requires OneComponent(safeTitle)
    ensures |path| == 4 && path[0] == "output" && path[1] == safeTitle && path[2] == "S" + Format02(season)
    ensures path[3] == JellyfinFilename(safeTitle, season,
      EpisodeNumber(partId, Field(videoData, "partDispNumber")), SanitizeFilename(Field(videoData, "partTitle"), nfc, isOther))
    ensures OneComponent(path[2]) && OneComponent(path[3]) && Mp4Name(path[3])
  {
    var number := Field(videoData, "partDispNumber");
    var episodeTitle := Field(videoData, "partTitle");
    SanitizedComponent(episodeTitle, nfc, isOther);
    JellyfinPath(safeTitle, season, EpisodeNumber(partId, number), SanitizeFilename(episodeTitle, nfc, isOther))
  }

  /** The older branch of the default output path (main.py:837-843). */
  function LegacyOutput(videoData: map<string, string>, safeTitle: string, nfc: Normalizer,
                        isOther: OtherCategory): (path: seq<string>)
    requires OneComponent(safeTitle)
    ensures |path| == 3 && path[0] == "output" && path[1] == safeTitle
    ensures path[2] == LegacyFilename(SanitizeFilename(Field(videoData, "partDispNumber"), nfc, isOther),
      SanitizeFilename(Field(videoData, "partTitle"), nfc, isOther))
    ensures OneComponent(path[2]) && Mp4Name(path[2])
  {
    var number := Field(videoData, "partDispNumber");
    var episodeTitle := Field(videoData, "partTitle");
    SanitizedComponent(number, nfc, isOther);
    SanitizedComponent(episodeTitle, nfc, isOther);
    LegacyPath(safeTitle, SanitizeFilename(number, nfc, isOther), SanitizeFilename(episodeTitle, nfc, isOther))
  }

  /** A Jellyfin file name built from single components is a single component. */
  lemma JellyfinComponent(title: string, season: int, episode: nat, episodeTitle: string)
    requires OneComponent(title) && OneComponent(episodeTitle)
    ensures OneComponent(JellyfinFilename(title, season, episode, episodeTitle))
  {
    Format02Component(season);
    Format02Component(episode);
    var p1 := title + " - S";
    OneComponentJoin(title, " - S");
    var p2 := p1 + Format02(season);
    OneComponentJoin(p1, Format02(season));
    var p3 := p2 + "E";
    OneComponentJoin(p2, "E");
    var p4 := p3 + Format02(episode);
    OneComponentJoin(p3, Format02(episode));
    var p5 := p4 + " - ";
    OneComponentJoin(p4, " - ");
    var p6 := p5 + episodeTitle;
    OneComponentJoin(p5, episodeTitle);
    OneComponentJoin(p6, ".mp4");
    assert JellyfinFilename(title, season, episode, episodeTitle) == p6 + ".mp4";
  }
}
