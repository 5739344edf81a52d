# Words page: a verified model

This project is a Dafny model of the vocabulary page of the site, `src/pages/Words.tsx`. The page:

- holds a fixed catalog of ten English words (`WordEntry` records);
- narrows the catalog while the visitor types, keeping the headwords that start with the search text, case-insensitively;
- switches between a dark and a light theme and remembers the choice in browser storage under `words-theme`;
- plays a word's pronunciation. It looks the word up in the public dictionary API and plays the first audio file listed in the first entry of the answer.

Modules:

| module | models |
|---|---|
| `Wrappers` | `Option`, for values that may be missing |
| `Text` | `toLowerCase` (ASCII letters) and `startsWith` |
| `Catalog` | `WordEntry` and the ten catalog entries, verbatim |
| `Lists` | `Array.prototype.filter` and what it keeps |
| `Search` | the search effect: a case-insensitive prefix filter over the catalog |
| `HeadwordSplit` | the lookup key `headword.split(/[\s/(]+/)[0]`, where `\s` is the ECMAScript whitespace set |
| `Theme` | the storage markers, the restore rule run at mount, and the toggle |
| `Pronunciation` | the request URL, the outcomes of the fetch, and the choice of the first phonetic that has audio |
| `WordsPage` | the page as a class with its state (`Page`), audio elements as objects (`AudioClip`), and the handlers as methods |

`playPronunciation` awaits twice: `fetch` (line 66) and `response.json()` (line 68). The model splits it at the first `await` and takes the outcome of both as one input:

- `Page.BeginPronunciation` pauses the playing clip, marks the word as loading and returns the request URL.
- `Page.CompletePronunciation` takes the outcome of the request and of reading its body. It may start a new clip, and it always clears the loading marker.
- `Page.PlayPronunciation` runs the two in sequence.

This outcome is an input to the model.

A quirk of the page is modelled as written:

- The play button passes the split key to `playPronunciation` (line 161). That key is what `loadingWord` holds.
- The button's `disabled` test (line 162) compares `loadingWord` with the whole headword.
- The two agree only when the headword contains no whitespace, `/` or `(`.
- For "Adequate / Inadequate" the key is "Adequate", so that button stays enabled while its own pronunciation loads.

The lemmas `WordsPage.OwnButtonDisabledWhileLoading`, `WordsPage.AdequateButtonStaysEnabled` and the method `WordsPage.Page.PressPlay` state this. Only a button whose headword equals `loadingWord` is disabled; every other word's button stays enabled (`WordsPage.AtMostOneButtonDisabled`).

## Model

| member | source | states |
|---|---|---|
| Text.LowerChar | src/pages/Words.tsx:46-48 | an upper-case ASCII letter becomes the letter 32 code points above it; every other character is unchanged |
| Text.ToLower | src/pages/Words.tsx:46-48 | lowercasing keeps the length of the text |
| Text.ToLowerPointwise | src/pages/Words.tsx:46-48 | lowercasing lowercases each character in place and leaves no upper-case letter |
| Text.ToLowerAppend | src/pages/Words.tsx:46-48 | lowercasing a concatenation is the concatenation of the lowercased parts |
| Text.ToLowerIdempotent | src/pages/Words.tsx:46-48 | lowercasing twice is the same as lowercasing once |
| Text.ToLowerPrefix | src/pages/Words.tsx:48 | the first n characters of the lowercased text are the lowercase of its first n characters |
| Text.StartsWith | src/pages/Words.tsx:48 | `s.startsWith(p)` holds iff `s` is `p` followed by some text |
| Text.StartsWithLonger | src/pages/Words.tsx:48 | text that starts with p + q also starts with p |
| Lists.Filter | src/pages/Words.tsx:47-49 | the filtered list is no longer than the list |
| Lists.FilterAllKept | src/pages/Words.tsx:47-49 | every element of the filtered list passes the test |
| Lists.FilterMembership | src/pages/Words.tsx:47-49 | an element is in the filtered list iff it is in the list and passes the test |
| Lists.FilterSelectsKept | src/pages/Words.tsx:47-49 | the filtered list is exactly the passing elements, picked at increasing positions, so their original order is kept |
| Lists.FilterIsSubsequence | src/pages/Words.tsx:47-49 | the filtered list is a subsequence of the list |
| Lists.FilterStrengthen | src/pages/Words.tsx:47-49 | filtering with a looser test and then with a stricter one gives the same list as filtering with the stricter test alone |
| Lists.FilterAppend | src/pages/Words.tsx:47-49 | filtering distributes over concatenation |
| Lists.FilterKeepsAll | src/pages/Words.tsx:47-49 | when every element passes, the filter returns the list unchanged |
| Lists.FilterKeepsNone | src/pages/Words.tsx:47-49 | when no element passes, the filter returns the empty list |
| Lists.FilterKeptPrefix | src/pages/Words.tsx:47-49 | a passing prefix followed by a failing stretch: the result is that prefix followed by the filter of what comes after |
| Catalog.WordData | src/pages/Words.tsx:23-34 | the ten catalog entries, field for field |
| Search.Matches | src/pages/Words.tsx:48 | the per-entry test of the search; a match needs a headword at least as long as the search text |
| Search.FilterWords | src/pages/Words.tsx:47-49 | the search shows no more entries than the list has, and every entry it shows matches the search text |
| Search.MatchesByPrefix | src/pages/Words.tsx:48 | an entry matches iff the first characters of its lowercased headword are the lowercased search text |
| Search.MatchesLongerTerm | src/pages/Words.tsx:48 | an entry that matches a search text also matches every prefix of it |
| Search.FilterWordsSelectsMatching | src/pages/Words.tsx:45-51 | the filtered view holds exactly the matching entries, in catalog order |
| Search.FilterWordsAllMatch | src/pages/Words.tsx:45-51 | when every entry matches, the view is the whole list |
| Search.FilterWordsNoneMatch | src/pages/Words.tsx:45-51 | when no entry matches, the view is empty |
| Search.FilterWordsMatchingPrefix | src/pages/Words.tsx:45-51 | when exactly the first k entries match, the view is those k entries |
| Search.FilterWordsEmptyTerm | src/pages/Words.tsx:46-48 | an empty search text leaves the list unchanged |
| Search.FilterWordsNarrows | src/pages/Words.tsx:45-51 | typing more characters gives a subsequence of the earlier view |
| Search.FilterWordsIdempotent | src/pages/Words.tsx:45-51 | filtering the view again with the same text changes nothing |
| Search.MatchesAbByInitials | src/pages/Words.tsx:48 | a headword matches "ab" iff its first two letters lowercase to a and b |
| Search.CatalogInitials | src/pages/Words.tsx:24-33 | every catalog headword starts with a/A; its second letter is b only for the first three entries |
| Search.CatalogMatchesAb | src/pages/Words.tsx:24-33 | catalog entry i matches "ab" iff i < 3 |
| Search.CatalogSearchAb | src/pages/Words.tsx:24-51 | searching the catalog for "ab" yields Abandon, Absorb and Abuse, in that order |
| HeadwordSplit.IsJsWhitespace | src/pages/Words.tsx:161 | `\s` in a regular expression: the ECMAScript WhiteSpace and LineTerminator code points |
| HeadwordSplit.IsDelimiter | src/pages/Words.tsx:161 | the class `[\s/(]`: a whitespace character, `/` or `(` |
| HeadwordSplit.TokenLengthStopsAtDelimiter | src/pages/Words.tsx:161 | the first token has no delimiter and ends at the end of the text or at a delimiter |
| HeadwordSplit.RunLengthCoversRun | src/pages/Words.tsx:161 | a delimiter run consists only of delimiters and ends at the end of the text or at a non-delimiter |
| HeadwordSplit.Split | src/pages/Words.tsx:161 | splitting yields at least one piece |
| HeadwordSplit.SplitPiecesAreClean | src/pages/Words.tsx:161 | no piece contains whitespace, `/` or `(` |
| HeadwordSplit.SplitKeepsAllText | src/pages/Words.tsx:161 | the pieces put back together are the headword with its delimiters removed |
| HeadwordSplit.SplitInnerPiecesNonEmpty | src/pages/Words.tsx:161 | delimiter runs are split on whole: every piece except the first and the last is non-empty |
| HeadwordSplit.SplitFirstWord | src/pages/Words.tsx:161 | a clean word followed by a delimiter run and then text becomes that word followed by the split of the text |
| HeadwordSplit.SplitTwoWords | src/pages/Words.tsx:161 | two clean words around a delimiter run split into exactly those two words, and the key is the first |
| HeadwordSplit.SplitCleanWord | src/pages/Words.tsx:161 | text without delimiters splits into itself alone |
| HeadwordSplit.LookupKey | src/pages/Words.tsx:161 | the lookup key is a prefix of the headword and contains no whitespace, `/` or `(` |
| HeadwordSplit.LookupKeyIsLongestCleanPrefix | src/pages/Words.tsx:161 | the key is the longest delimiter-free prefix of the headword, and it is empty iff the headword is empty or starts with a delimiter |
| HeadwordSplit.LookupKeyWhole | src/pages/Words.tsx:161 | the key is the whole headword iff the headword has no delimiter |
| HeadwordSplit.AdequateKey | src/pages/Words.tsx:33 | "Adequate / Inadequate" splits into its two forms and is looked up as "Adequate" |
| Theme.GetItem | src/pages/Words.tsx:39 | reading storage yields the stored value exactly when the key is present |
| Theme.Marker | src/pages/Words.tsx:56 | the stored marker is 'dark' or 'light', and it is 'light' iff the theme is light |
| Theme.Restore | src/pages/Words.tsx:39-42 | after mount the theme is light iff it was light before or the stored value is exactly 'light' |
| Theme.FreshPageTheme | src/pages/Words.tsx:19-42 | a fresh page is dark unless storage holds exactly 'light'; a missing or unknown value leaves it dark |
| Theme.Toggle | src/pages/Words.tsx:53-57 | toggling negates the flag, stores the marker of the new theme under `words-theme`, and keeps the other storage keys |
| Theme.ToggleSurvivesReload | src/pages/Words.tsx:53-57 | a fresh page restored from the storage a toggle wrote shows the toggled theme |
| Theme.ToggleTwice | src/pages/Words.tsx:53-57 | toggling twice restores the flag, and the whole state when the marker was already stored |
| Pronunciation.RequestUrl | src/pages/Words.tsx:66 | the request URL is the dictionary endpoint followed by the word |
| Pronunciation.RequestUrlNamesWord | src/pages/Words.tsx:66 | different words give different request URLs |
| Pronunciation.PhoneticsOf | src/pages/Words.tsx:69 | the phonetics are those of the first entry when it has them, and none when there is no first entry or it has no `phonetics` |
| Pronunciation.HasAudio | src/pages/Words.tsx:70 | the truthiness test of `p.audio`: present and not the empty string |
| Pronunciation.FirstAudioIndex | src/pages/Words.tsx:70 | `find` yields the first phonetic with non-empty audio, or nothing when none has audio |
| Pronunciation.AudioSource | src/pages/Words.tsx:64-76 | a clip is played iff the request succeeded, the body parsed, and a phonetic of the first entry has audio; its source is non-empty |
| Pronunciation.AudioSourceIsFirst | src/pages/Words.tsx:69-73 | the audio played is that of the first phonetic with audio |
| Pronunciation.NoAudioPlaysNothing | src/pages/Words.tsx:69-72 | when no phonetic of the first entry has audio, nothing is played |
| WordsPage.AudioClip.constructor | src/pages/Words.tsx:73 | a new clip plays the given source and starts paused |
| WordsPage.AudioClip.Pause | src/pages/Words.tsx:61 | pausing leaves the clip paused |
| WordsPage.AudioClip.Play | src/pages/Words.tsx:75 | playing leaves the clip playing |
| WordsPage.PlayButtonDisabled | src/pages/Words.tsx:162 | the `disabled` test of a play button; no button is disabled while nothing is loading |
| WordsPage.AtMostOneButtonDisabled | src/pages/Words.tsx:162 | two disabled buttons have the same headword, and it is the loading marker |
| WordsPage.OwnButtonDisabledWhileLoading | src/pages/Words.tsx:161-162 | while its own key loads, a word's button is disabled iff the headword has no delimiter |
| WordsPage.AdequateButtonStaysEnabled | src/pages/Words.tsx:161-162 | the catalog's "Adequate / Inadequate" button is not disabled while "Adequate" loads |
| WordsPage.AdequateRequestUrl | src/pages/Words.tsx:161 | the "Adequate / Inadequate" button requests the endpoint followed by "Adequate" |
| WordsPage.Page.constructor | src/pages/Words.tsx:16-21 | the initial state: no words, empty search, dark theme, no clip, nothing loading, storage as given |
| WordsPage.Page.Mount | src/pages/Words.tsx:36-51 | mounting loads the catalog, sets the view to the catalog filtered by the current search text, and restores the theme from storage |
| WordsPage.Page.SetSearchTerm | src/pages/Words.tsx:45-51 | a new search text replaces the view with the filter of the words by that text |
| WordsPage.Page.ToggleTheme | src/pages/Words.tsx:53-57 | the state moves by `Theme.Toggle`, a reload would restore the new theme, and the view stays the search over the words |
| WordsPage.Page.BeginPronunciation | src/pages/Words.tsx:59-66 | the playing clip is paused, the word is marked loading, the request URL names the word, and the view is kept |
| WordsPage.Page.CompletePronunciation | src/pages/Words.tsx:67-82 | a playable outcome installs a fresh clip playing the first audio; any other outcome keeps the clip; loading is always cleared; the view is kept |
| WordsPage.Page.PlayPronunciation | src/pages/Words.tsx:59-83 | the old clip ends paused, the new clip (if any) plays the first audio, and loading ends cleared |
| WordsPage.Page.PressPlay | src/pages/Words.tsx:161-162 | the button requests and marks its key, and is then disabled iff its headword has no delimiter |
| WordsPage.PlayTwoWords | src/pages/Words.tsx:59-83 | playing a second word pauses the first clip and leaves the second, a different clip, playing |

## Left out

- `src/App.tsx` is not part of this model. It holds the landing page and the switch between pages.
- The rendering is not modelled: JSX, Tailwind classes, the theme colours and the `opacity-50` class on a disabled button (line 167).
- The network, JSON decoding and `console.error` are not modelled. The outcome of `fetch` and `response.json()` is an input (`Pronunciation.FetchResult`), whose parsed form is an array of entries whose `audio` values are strings. JSON bodies of other shapes are outside the model: in the source a non-array object with a key `"0"` can still supply phonetics, and an `audio` value that is truthy but not a string, such as `1`, would still be played.
- WordsPage.AudioClip.Play: `audio.play()` returns a promise that the browser may reject, for example under an autoplay policy. The model treats playing as always succeeding.
- WordsPage.Page.PlayPronunciation: the two halves run back to back. Overlapping requests are not modelled. In the source a stale response can clear the loading marker of a newer request, or start its clip after a newer one. `BeginPronunciation` and `CompletePronunciation` can be called in any order, but no property about interleavings is proved.
- Text.LowerChar: only ASCII letters are lowercased. JavaScript's `toLowerCase` also maps non-ASCII letters. Every catalog headword is ASCII.
- React's scheduling is not modelled. State updates take effect at once, in program order. The search effect is folded into `Page.Mount` and `Page.SetSearchTerm`.
- `localStorage` is a map field of the page. Exceptions from storage access are not modelled.
