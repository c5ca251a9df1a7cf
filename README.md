# dAnime manifest analysis and stream selection, modelled in Dafny

This project models the decision logic of `main.py`, the single-file downloader for the dAnime
store. It covers the part that reads a DASH manifest (MPD) and a few pieces of text around it.
It does not model fetching pages, the license exchange, downloading or running external tools.

It models:

- **Key-ID discovery** (`KeyId`, key_id.dfy). This is the first half of `extract_mpd_info`:
  - a pre-order pass over every element that stops at the first exact `default_KID` attribute;
  - inside that pass, the first attribute whose name mentions `default_KID` or `defaultKID`;
  - then a fallback over the namespace-qualified `cenc:default_KID` attributes.
- **The PSSH cascade** (`Pssh`, pssh.dfy). This is the second half of `extract_mpd_info`. It
  tries five strategies in a fixed order:
  - the two lazy regular expressions `<cenc:pssh…>` and `<pssh…>`;
  - the literal `<cenc:pssh>` scan;
  - the Widevine `ContentProtection` descriptors with their `pssh` children;
  - the global `pssh` elements.

  The tree strategies appear twice: once exactly as written and once as evidently intended (see
  Findings).
- **Quality selection** (`Selection`, selection.dfy, with the stable descending sort in
  `Sorting`, sorting.dfy). This is `select_best_quality`:
  - the base URL;
  - the per-AdaptationSet video and audio lists;
  - the sort by `(height, width)` and by bandwidth;
  - the exact `WxH` match, then the closest match by Manhattan distance, then the best entry.
- **The helpers around them:**
  - the cookie-string parser (`Cookies`);
  - the MPD-URL fallback chain (`MpdUrl`);
  - the `mp4decrypt` command line (`DecryptArgs`);
  - `sanitize_filename`, `extract_episode_number`, and the Jellyfin and older output file names
    (`Naming`).

The shared support modules are:

- `Wrappers`: `Option`, `Result`, first-index search and filtering.
- `Text`: Python string operations, including `isspace`, `strip`, `find`, `split`, `int` on
  ASCII digits and `:02d`.
- `Manifest`: an ElementTree-like element tree, with tags and attribute names in ElementTree's
  `{namespace}name` notation, pre-order traversal and the `find`/`findall` path forms the source
  uses.

Every loop of the source is a method proved equal to a specification function. The properties the
source relies on are lemmas about those functions. The loops of the tree strategies are the
exception to "as the source": their methods compute the corrected search of the Findings row.
The search as written is modelled by functions (`TreeSearchAsWritten`, `MpdInfoAsWritten`), and a
lemma bounds how far the two differ.

## Model

| member | source | states |
|---|---|---|
| Cookies.ParsePair | main.py:40-41 | A piece with no `=` is skipped. Otherwise the piece is the name, `=`, then the value, and the name holds no `=` (split at the first `=`). |
| Cookies.ParsePairRoundTrip | main.py:41 | Joining a name that holds no `=` to any value with `=` splits back into that name and that value. |
| Cookies.Jar | main.py:38-42 | No key of the cookie dictionary contains `=`. |
| Cookies.JarNames | main.py:38-42 | A name is in the dictionary exactly when some piece of the cookie string carries it. |
| Cookies.JarLastWins | main.py:39-42 | The last piece carrying a name decides its value: later duplicates overwrite earlier ones. |
| Cookies.ParseCookies | main.py:37-42 | The loop builds exactly the dictionary of the `; `-separated pieces. An empty cookie string gives an empty dictionary. |
| MpdUrl.MpdUrlOf | main.py:750-764 | There is no URL exactly when none of `middle`, `low`, `lowest`, `castContentUri` is present and non-blank. Otherwise the URL is the first such candidate in that order, is non-blank and is used unstripped. |
| MpdUrl.ChooseMpdUrl | main.py:750-764 | The quality loop with its `break`, then the `castContentUri` test, yield `MpdUrlOf`. |
| DecryptArgs.Mp4decryptCommand | main.py:639-644 | The command is `mp4decrypt`, then one `--key`, `KID:KEY` pair per key in license order, then the input and output files. Its length is `2·keys + 3`. The audio command at main.py:662-667 is built the same way. |
| DecryptArgs.KeyArgSplits | main.py:642 | A `KID:KEY` argument splits at `:` back into its key ID and key when neither holds a colon. |
| KeyId.KeyIdOf | main.py:174-208 | A key ID that is found is never empty. The empty string is the `None, None` path. |
| KeyId.ScanElement | main.py:177-187 | One element's pass stops the outer loop exactly when that element decides the pre-order pass, and then yields the value it decides. Otherwise the key ID stays falsy. |
| KeyId.FindKeyId | main.py:174-208 | The pre-order loop with its three `break`s, then the qualified-attribute fallback loop, compute `KeyIdOf`. |
| KeyId.FirstPassSkips | main.py:176-187 | Elements with no key-like attribute never stop the pre-order pass. |
| KeyId.FirstPassSound | main.py:176-187 | A non-empty result of the pre-order pass is the value of a key-like attribute of some element. |
| KeyId.CencFallbackSound | main.py:198-202 | A non-empty fallback result is the value of the `{urn:mpeg:cenc:2013}default_KID` attribute of some carrier. |
| KeyId.CencFallbackEmpty | main.py:198-202 | An empty fallback result means every carrier's qualified `default_KID` is absent or empty. |
| KeyId.KeyIdIsAnAttributeValue | main.py:174-208 | Any key ID found is the non-empty value of an attribute whose name mentions `default_KID`/`defaultKID`, on some element of the manifest. |
| KeyId.ExactKidWins | main.py:177-179 | At the first element in pre-order with any key-like attribute, a non-empty exact `default_KID` is the key ID. |
| KeyId.MentionedKidWins | main.py:181-187 | When that element has no exact `default_KID`, the first of its key-like attributes in order decides, if non-empty. |
| KeyId.EmptyExactKidEndsPass | main.py:177-202 | An empty exact `default_KID` at that element ends the pass there, and only the qualified fallback can still find a key. |
| KeyId.NoKeyIdMeansNoQualifiedKid | main.py:192-208 | When no key ID is found, no descendant carries a non-empty qualified `default_KID`. |
| KeyId.NoKidAttributeNoKeyId | main.py:176-208 | A manifest none of whose attributes mentions `default_KID` or `defaultKID` yields no key ID. |
| Pssh.StripToOption | main.py:215-221 | A captured group counts only when it holds something besides whitespace, and then it is its stripped form. |
| Pssh.MatchAt | main.py:212-214 | At an index, the lazy `open[^>]*>(.*?)close` pattern matches exactly when the opening text, a first `>` and a later closing text exist. The group is the text up to the first closing text after that `>`. |
| Pssh.LaterOpeningsFail | main.py:212-214 | When the pattern fails at one occurrence of the opening text, it fails at every later one. |
| Pssh.FirstOpeningDecides | main.py:212-221 | `re.search` matches at the first occurrence of the opening text or nowhere. |
| Pssh.RegexStrategy | main.py:212-221 | A PSSH found by either regular expression is stripped and non-empty. |
| Pssh.LiteralScan | main.py:226-234 | The literal scan succeeds only when `<cenc:pssh>` occurs and `</cenc:pssh>` occurs after it. Its result is stripped. |
| Pssh.LiteralScanFromFirstOpen | main.py:226-232 | Without `<cenc:pssh>` nothing is found. Otherwise the scan is the scan from just after the first `<cenc:pssh>`, so the extra test that `</cenc:pssh>` occurs somewhere changes nothing. |
| Pssh.LiteralScanAt | main.py:226-232 | When the first `<cenc:pssh>` is at `p`, the scan is the scan from `p + 11`. |
| Pssh.ScanFrom | main.py:229-232 | With no `</cenc:pssh>` at or after the start, nothing is taken. Otherwise, up to the first such closing tag, the text is taken when the start is past index 10 and the text is not empty. It is stripped, and a blank text gives nothing. |
| Pssh.LiteralTagsMatch | main.py:212-229 | A `<cenc:pssh>` with a `</cenc:pssh>` after it always gives the `<cenc:pssh` expression a match. |
| Pssh.LiteralScanNeedsRegexMatch | main.py:212-234 | Whenever the literal scan finds text, the `<cenc:pssh` expression has a match too. |
| Pssh.RunQuery | main.py:246-258 | A query returns every descendant with that tag whose `schemeIdUri` equals the given text, and nothing else. |
| Pssh.RunQueryHead | main.py:254-258 | The answer is empty exactly when no descendant answers. Otherwise its head is the first answering descendant in document order. |
| Pssh.FirstAnswer | main.py:252-263 | The descriptors kept are descendants that answer one of the queries. |
| Pssh.FirstAnswerIsFirstFinding | main.py:252-263 | The descriptors kept are the answer of the first query that finds anything. They are empty exactly when every query finds nothing. |
| Pssh.WidevineDescriptorsMatchExactly | main.py:242-263 | Every descriptor searched is a `ContentProtection` (namespaced or not) whose `schemeIdUri` equals one of the two Widevine spellings exactly. |
| Pssh.UsableText | main.py:269-270 | An element text is used exactly when it is present and not only whitespace, and then it is stripped. |
| Pssh.ChildSearch | main.py:280-285 | When the child loop finds nothing, no child whose lower-cased tag contains `pssh` has usable text. |
| Pssh.ChildSearchFirst | main.py:280-285 | The child loop yields the stripped text of the first child whose tag contains `pssh` and whose text is usable. It yields nothing exactly when there is no such child. |
| Pssh.FirstUsable | main.py:296-300 | When the global loop finds nothing, none of the global `pssh` elements has usable text. |
| Pssh.FirstUsableFirst | main.py:296-300 | The global loop yields the stripped text of the first element whose text is usable. It yields nothing exactly when there is none. |
| Pssh.TreeSearch | main.py:236-302 | The intended tree strategies only return stripped, non-empty text. |
| Pssh.ChildScanAgrees | main.py:280-285 | The child loop as written stops exactly when the intended one finds a text, with that text. |
| Pssh.DescriptorAgrees | main.py:266-288 | One descriptor round as written either agrees with the intended one or stops on a whitespace-only text. |
| Pssh.DescriptorsAgree | main.py:265-288 | The descriptor loop as written returns the intended result or a whitespace-only text. |
| Pssh.GlobalAgrees | main.py:296-300 | The global loop as written finds the first usable text when there is one. Otherwise it leaves an unusable value behind. |
| Pssh.AsWrittenDiffersOnlyOnBlank | main.py:236-302 | The tree strategies as written differ from the intended ones only by returning a whitespace-only PSSH. |
| Pssh.BlankDescriptorAsWritten | main.py:266-288 | On a descriptor whose only `cenc:pssh` holds `" "`, the loop as written stops with `" "`, while the intended search finds nothing. |
| Pssh.BlankPsshReturnedAsWritten | main.py:265-288 | On a blank-then-filled manifest, the code as written returns `" "` as the PSSH and the intended search returns `"AAAA"`. |
| Pssh.MpdInfoAsWritten | main.py:174-311 | `extract_mpd_info` exactly as written: the key ID is the one `KeyIdOf` finds, and there is no PSSH without a key ID. |
| Pssh.MpdInfoDiffersOnlyOnBlank | main.py:174-311 | The function as written and the corrected one agree on the key ID. They differ only when the one as written returns a whitespace-only PSSH, where the corrected one returns the intended tree search. |
| Pssh.ExampleKeyId | main.py:176-187 | On the example manifest, the pre-order pass stops at the first descriptor, whose `cenc:default_KID` is the key ID. |
| Pssh.BlankFirstText | main.py:210-234 | On a text whose first `<cenc:pssh` opens `<cenc:pssh> </cenc:pssh>` and which holds no `<pssh`, every text strategy finds nothing. |
| Pssh.BlankPsshExtractedAsWritten | main.py:174-311 | On such a text of the example manifest, the function as written returns the key ID with `" "` as the PSSH, and the corrected one returns `"AAAA"`. |
| Pssh.MpdInfoOf | main.py:174-311 | The corrected `extract_mpd_info` of the Findings row. The key ID is the one `KeyIdOf` finds. With no key ID there is no PSSH. A PSSH is non-empty and stripped. With a key ID but no PSSH, no global `pssh` element has usable text. |
| Pssh.FindWidevineDescriptors | main.py:252-263 | The query loop with its `break` yields the elements of the first query that finds any. |
| Pssh.SearchChildren | main.py:280-285 | The child loop computes `ChildSearch`. |
| Pssh.SearchDescriptor | main.py:266-288 | One round of the descriptor loop, corrected to take only non-blank text, computes `DescriptorPssh`. |
| Pssh.SearchDescriptors | main.py:265-288 | The descriptor loop, corrected to take only non-blank text, computes `DescriptorsSearch`. |
| Pssh.SearchGlobal | main.py:290-302 | The global loop over `cenc:pssh` elements, or else bare `pssh` ones, corrected to take only non-blank text, computes `FirstUsable`. |
| Pssh.ExtractMpdInfo | main.py:174-311 | `extract_mpd_info` after the download and parse, with the corrected tree loops, returns `MpdInfoOf`. |
| Sorting.Insert | main.py:459-460 | Inserting keeps every element and adds the new one. |
| Sorting.SortDesc | main.py:459-460 | `sort(key=…, reverse=True)` yields a permutation of the list in descending key order. |
| Sorting.InsertSorted | main.py:459-460 | Insertion keeps a descending list descending. |
| Sorting.SortStable | main.py:459-460 | For every key, the elements with that key keep their original relative order (Python's sort is stable). |
| Sorting.FirstOfSort | main.py:459-460 | The head of the sorted list is the first element in input order among those with the largest key. |
| Selection.LastSlash | main.py:410 | The index found holds `/` and no later index does. None means there is no `/`. |
| Selection.Directory | main.py:410 | `rsplit("/", 1)[0] + "/"`: the URL up to its last `/`, or the whole URL plus `/` when it has none. The result always ends in `/`. |
| Selection.ResolveUrl | main.py:427-430 | A text starting with `http` is used as it is. Anything else is joined to the base. |
| Selection.DocumentBase | main.py:404-410 | With no `BaseURL` anywhere, the base is the manifest URL's directory. With a first `BaseURL` holding text, the base is that text resolved against the manifest URL. The only failure is a first `BaseURL` with no text. |
| Selection.IntAttr | main.py:420-422 | A missing attribute reads as 0. A present one must be a decimal number, else the `int()` error. |
| Selection.RepVideo | main.py:420-440 | A video Representation reads width, height and bandwidth first. It makes an entry exactly when it has a `BaseURL` child, with those numbers and the resolved URL. It fails exactly when a number does not read or the `BaseURL` child has no text. |
| Selection.RepAudio | main.py:444-456 | An audio Representation reads its bandwidth and makes an entry exactly when it has a `BaseURL` child. It fails exactly when the bandwidth does not read or the `BaseURL` child has no text. |
| Selection.VideoEntriesShape | main.py:419-440 | The video list of a set is built exactly when every Representation reads. It has one entry per Representation with a `BaseURL`. |
| Selection.AudioEntriesShape | main.py:443-456 | The audio list of a set is built exactly when every Representation reads. It has one entry per Representation with a `BaseURL`. |
| Selection.SetQualities | main.py:416-456 | A set whose `mimeType` has `video` adds exactly its Representations' video entries, and fails exactly when they fail. Otherwise a set whose `mimeType` has `audio` adds exactly their audio entries in the same way. Any other set adds nothing and never fails. |
| Selection.AllQualitiesOk | main.py:415-456 | The lists are built exactly when every AdaptationSet's Representations read. |
| Selection.ParseTarget | main.py:473 | A target parses exactly when it splits at `x` into two decimal numbers. |
| Selection.ClosestIndex | main.py:474-485 | For a non-empty list, the entry chosen is at the minimal distance and strictly closer than every earlier entry. None means the list is empty. |
| Selection.ClosestUnique | main.py:481-483 | Only one index satisfies that characterisation. |
| Selection.ReadVideo | main.py:420-440 | Reading one video Representation computes `RepVideo`. |
| Selection.ReadAudio | main.py:444-456 | Reading one audio Representation computes `RepAudio`. |
| Selection.CollectVideo | main.py:419-440 | The video Representation loop computes `VideoEntries`. |
| Selection.CollectAudio | main.py:443-456 | The audio Representation loop computes `AudioEntries`. |
| Selection.CollectAdaptation | main.py:416-456 | One AdaptationSet computes `SetQualities`. |
| Selection.CollectQualities | main.py:415-456 | The AdaptationSet loop computes `AllQualities` over the sets in document order. |
| Selection.FindExact | main.py:466-469 | The exact-match loop returns the first entry whose `WxH` equals the target. |
| Selection.ClosestStep | main.py:479-484 | One more entry replaces the closest so far only when it is strictly closer. |
| Selection.FindClosest | main.py:474-485 | The minimum-difference loop, with infinity as the start, returns the entry `ClosestIndex` designates. |
| Selection.ChooseVideo | main.py:462-489 | The video choice computes `SelectVideo`. |
| Selection.SelectBestQuality | main.py:391-499 | `select_best_quality` after the fetch and parse returns `BestQualityOf`. |
| Selection.ResolutionParses | main.py:438 | An entry's `WxH` text parses back to its width and height. |
| Selection.ResolutionInjective | main.py:438 | Two entries have the same `WxH` text exactly when they have the same width and height. |
| Selection.ExactIsClosest | main.py:466-485 | When an exact match exists, the closest-match scan would end on that same entry. |
| Selection.ExactFirstInDocumentOrder | main.py:459-469 | The exact scan over the sorted list finds the first matching entry in document order. |
| Selection.VideoWithoutTarget | main.py:487-489 | Without a target, the video is the first entry in document order with the largest `(height, width)`. There is none only when there are no video entries. |
| Selection.AudioBestOf | main.py:459-491 | The head of the audio list sorted by bandwidth is the first entry with the largest bandwidth. It is absent only for an empty list. |
| Selection.AudioIsBest | main.py:460-492 | The audio is the first entry in document order with the largest bandwidth. There is none only when there are no audio entries. |
| Selection.ExactMatchChosen | main.py:464-469 | With a target some entry matches, the first such entry in document order is chosen. |
| Selection.NoExactAfterSort | main.py:459-469 | Sorting creates no exact match. |
| Selection.ClosestChosen | main.py:471-485 | With no exact match and a well-formed target, a non-empty list yields an entry at the minimal distance. Ties go to the first in the sorted order. |
| Selection.MalformedTargetFails | main.py:473 | With no exact match, a target that is not `WxH` raises, even when there are no video entries. |
| Naming.DropOther | main.py:796-798 | Dropping category-C characters keeps only characters of the input that are not in category C. |
| Naming.DropOtherAppend | main.py:796-798 | Dropping works piece by piece: a text made of two parts gives what is left of the first part, then what is left of the second. |
| Naming.DropOtherOne | main.py:796-798 | A single character is dropped exactly when it is in category C. |
| Naming.DropOtherKeeps | main.py:796-798 | A character not in category C is kept, in its place between what is left of the text before it and of the text after it. |
| Naming.ReplaceForbidden | main.py:799-800 | Each of `<>:"/\|?*` becomes `_` and every other character stays, position by position. |
| Naming.CleanTextChars | main.py:796-801 | After the cleaning steps, every character is `_` or a kept source character, none is forbidden, and no whitespace is at either end. |
| Naming.Cleaned | main.py:795-801 | The normalised and cleaned name has no forbidden character and is stripped. |
| Naming.NameOrUnknown | main.py:802-805 | An empty name becomes `Unknown`. A name of at most 100 characters is kept. A longer one is cut to exactly its first 100 characters. |
| Naming.SanitizeFilename | main.py:794-806 | The result has 1 to 100 characters, no forbidden character and no leading whitespace. It is `Unknown` when nothing is left. Otherwise it is made of kept characters. |
| Naming.CleanNameUnchanged | main.py:794-806 | A name that is already normalised, stripped, short and free of forbidden and category-C characters comes back unchanged. |
| Naming.DropNothing | main.py:796-798 | A text with no category-C character loses nothing. |
| Naming.IdTail | main.py:812 | `part_id[-3:]` is the last three characters, or the whole ID when it is shorter. |
| Naming.LeadingDigits | main.py:816 | The digit run taken is a prefix made of digits and is maximal. |
| Naming.FirstNumber | main.py:816-817 | There is a first number exactly when some character is a digit. It is the first maximal run of digits: no digit comes before it, and the end or a non-digit comes after it. |
| Naming.EpisodeNumber | main.py:808-819 | When the part ID's last three characters are digits, the episode is the number they write, below 1000. Failing that, it is the value of the first number in the displayed number. With no digit there either, it is 1. |
| Naming.EpisodeFromPartId | main.py:811-813 | A part ID ending in three digits gives the number they write. |
| Naming.EpisodeOfExamplePart | main.py:810-813 | Part `22435001` is episode 1. |
| Naming.EpisodeFromDisplay | main.py:814-818 | Failing the part ID, a displayed text of non-digits, then `n`, then the end or a non-digit gives `n`. |
| Naming.LeadingDigitsOf | main.py:816 | A digit run followed by the end or a non-digit is taken whole. |
| Naming.JellyfinFilename | main.py:828 | The Jellyfin name starts with the title and ends with `.mp4`. |
| Naming.JellyfinFields | main.py:828 | For season and episode below 100, the name decodes back: title, ` - S`, two digits worth the season, `E`, two digits worth the episode, ` - `, then the episode title. |
| Naming.JellyfinDistinct | main.py:828 | For titles of equal length, and season and episode below 100, equal Jellyfin names have equal fields. |
| Naming.LegacyFilename | main.py:843 | The older name starts with the episode number and `_` and ends with `.mp4`. |
| Naming.LegacyFields | main.py:843 | When the episode number holds no `_`, it is the text before the first `_`, and the episode title follows it. |
| Naming.LegacyCollision | main.py:837-843 | Because `_` survives sanitising, episode `a_b` titled `c` and episode `a` titled `b_c` get the same older name, for plain short texts. |
| Naming.DotTitlesSurvive | main.py:794-806 | A title `.` or `..` passes sanitising unchanged. |
| Naming.PlainNameUnchanged | main.py:794-806 | A short name of plain characters, none in category C and unchanged by normalisation, passes sanitising unchanged. |
| Naming.Format02Component | main.py:828-833 | `:02d` text never holds a path separator. |
| Naming.JellyfinComponent | main.py:828 | A Jellyfin name built from separator-free parts is one path component. |
| Naming.JellyfinPath | main.py:825-836 | The Jellyfin layout is `output/<title>/S<season:02d>/<file>`, and the file is the Jellyfin name of the given fields. Every part after `output` is one component. |
| Naming.LegacyPath | main.py:837-843 | The older layout is `output/<title>/<file>`, and the file is the older name of the given number and title. Every part after `output` is one component. |
| Naming.JellyfinOutput | main.py:825-836 | The Jellyfin branch puts the file under `output/<title>/S<season:02d>`. The file is the Jellyfin name of the sanitised series title, the season, the episode number and the sanitised episode title. The episode number comes from the part ID or the raw displayed number. The season directory and the file name are single components. |
| Naming.LegacyOutput | main.py:837-843 | The older branch puts the file directly under `output/<title>`. The file is the older name of the sanitised displayed number and the sanitised episode title, and it is a single component. |
| Naming.OutputPath | main.py:787-843 | The default output path is `output`, the sanitised series title, then in the Jellyfin layout `S<season:02d>` and the Jellyfin file name, or otherwise the older file name. The file names are built from the fields as `JellyfinOutput` and `LegacyOutput` state. No part after `output` holds a separator. |

## Left out

- Fetching the manifest, the video-information and episode pages over HTTP is left out. So is the `webInitiatorUri` HTML-scraping route after the MPD-URL chain. The MPD URL is `None` when the chain fails.
- The license request, the Widevine CDM (`pywidevine`) and the content keys' origin are left out. Keys come in as a list.
- Downloading the segments, running `mp4decrypt` and `ffmpeg` through `subprocess` (with `shell=True`), temporary files and progress bars are left out. Only the `mp4decrypt` argument list is modelled.
- XML parsing is left out. The manifest is given both as raw text and as an already-parsed element tree. A parse error is not modelled.
- `urllib.parse.urljoin` is a function parameter of the selection model. Its RFC 3986 resolution is not modelled.
- `unicodedata.normalize("NFC", …)` and the Unicode category test `category(c)[0] == "C"` are function parameters of the naming model, not Unicode tables.
- Setting the parsed cookies on the HTTP session for `.docomo.ne.jp` and `.animestore.docomo.ne.jp` (main.py:44-46) is a side effect on the HTTP client. It is not modelled beyond the dictionary.
- Directory creation (`os.makedirs`) and `os.path.join` are left out. The output path is modelled as its list of components.
- The JSON values of the video information are modelled as strings. `str(name)` of a non-string value is not modelled.
- Selection.IntAttr: reads only non-empty ASCII decimal digits. Python's `int()` also accepts surrounding whitespace, a sign, `_` separators and non-ASCII digits. Those inputs are treated as the `int()` error.
- Selection.ParseTarget: the same restriction. A target such as `-5x3` or ` 1920x1080` would parse in Python and is an error here.
- Naming.EpisodeNumber: the same restriction on `int(part_id[-3:])`, and the regular expression `\d+` is restricted to ASCII digits. A part ID ending in `-12` or ` 12` is read by Python but falls back here.
- Pssh.WidevineDescriptorsMatchExactly: the lower-case and upper-case Widevine UUIDs are compared with string equality, as the source does. A mixed-case `schemeIdUri` matches no query.
- Pssh.MatchAt: `[^>]*` is modelled as "up to the first `>`". Every other part of the regular expressions is modelled character by character.
- Selection.DocumentBase: the first `BaseURL` anywhere in the document becomes the base, including one nested inside a Representation, as the `.//mpd:BaseURL` query does.
- Pssh.SearchDescriptor: computes the corrected round of the Findings row. The round as written is `Pssh.DescriptorAsWritten`, which can stop on a whitespace-only text.
- Pssh.SearchDescriptors: computes the corrected loop. The loop as written is `Pssh.DescriptorsAsWritten`.
- Pssh.SearchGlobal: computes the corrected loop. The loop as written is `Pssh.GlobalAsWritten`, which can leave the last element's unusable text in `pssh_data`.
- Pssh.ExtractMpdInfo: computes the corrected `Pssh.MpdInfoOf`. The function as written is `Pssh.MpdInfoAsWritten`, and `Pssh.MpdInfoDiffersOnlyOnBlank` bounds the difference.
- Pssh.MpdInfoOf: the corrected function, as above.
- Pssh.RunQuery: the answer lists the answering descendants in document order because it filters the pre-order walk. Only its head is stated as the first in document order.
- Pssh.BlankPsshExtractedAsWritten: the raw text and the tree are separate inputs here. The lemma covers every text whose first `<cenc:pssh` opens the blank element and which holds no `<pssh`. It does not state that such a text parses to the example tree.
- Naming.OutputPath: the path is promised to hold no separator inside a part, not to stay below `output/<series>`. A series title `.` or `..` survives sanitising (`Naming.DotTitlesSurvive`), so the series directory can be `output` itself or the parent of `output`.
- The video and audio lists the source appends to across AdaptationSets are modelled as per-set lists concatenated in document order.

## Findings

| source | as written | input that shows it | evidently intended | confidence | as-written member | corrected member |
|---|---|---|---|---|---|---|
| main.py:265-300 | The tree strategies assign `pssh_data = element.text` before testing it. A whitespace-only text stays in `pssh_data` when the test `pssh_data.strip()` fails. It is truthy, so `if pssh_data: break` ends the descriptor loop, and the caller returns it as the PSSH. | A manifest with two Widevine `ContentProtection` descriptors. The first carries `cenc:default_KID` and holds `<cenc:pssh> </cenc:pssh>`. The second holds `<cenc:pssh>AAAA</cenc:pssh>`. Its raw text has no `<pssh`. The text strategies all fail on it, because each looks only at the first `<cenc:pssh>`, whose text is blank. `extract_mpd_info` then returns the key ID with `" "` as the PSSH. | Only a non-blank, stripped text is taken, so the second descriptor's `AAAA` is found. | not executed | Pssh.BlankPsshExtractedAsWritten | Pssh.TreeSearch |
