# Brevis IQ quiz — a Dafny model of the quiz core

Brevis IQ is a single-page React app. It draws ten questions from a fixed
bank, times each answer with a 20-second countdown and scores correct
answers, with a bonus for speed. At the end it shows a share card with
the score, an estimated IQ, a badge and the player's avatar. The card can
be downloaded as a PNG. This project models the logic behind those
screens, all of it in `src/App.jsx`, and proves what that logic promises.

- `wrappers.dfy` (`Wrappers`): the `Option` type. It stands for JavaScript's
  `null`.
- `jstext.dfy` (`JsText`): the string built-ins the core relies on,
  restated:
  - `trim`, over the ECMAScript white-space and line-terminator set;
  - `replace(/^@/, "")`;
  - `split(" ")` and `filter(Boolean)`;
  - `toUpperCase`, on ASCII letters;
  - `encodeURIComponent`, with `%XX` escapes of the UTF-8 bytes.
- `sampler.dfy` (`Sampler`): `sampleQuestions`. It is an in-place
  Fisher–Yates shuffle of an array copy of the bank, then a prefix. The
  random index chosen at position `i` is an injected `draws[i]` in
  `[0, i]`. The method is proved equal to a functional specification.
  Lemmas about that specification give:
  - the length of the sample;
  - multiset containment in the bank;
  - sampling at distinct bank positions.
- `scoring.dfy` (`Scoring`):
  - the score as a specification function, with its bounds, its maximum
    and its decomposition;
  - `maxScore`;
  - `iq`, written in integers;
  - the badge tiers, with their agreement with the IQ.
- `avatar.dfy` (`Avatar`):
  - the provider URL candidates for a handle;
  - the source the card shows and the source the export uses;
  - the name on the card and the downloaded file's name;
  - the initials image of `initialsDataUrl`.
  The initials image is represented by the name it is drawn for
  (`InitialsOf(name)`). `Src` gives its actual `data:` URL. The file also
  models the initials computation as written, over UTF-16 code units (see
  Findings).
- `app.dfy` (`App`): class `BrevisIqApp`. It holds the React state (`step`,
  `handle`, `displayName`, `avatarIdx`, `avatarOverride`, `quiz`, `current`,
  `selections`, `timeLeft`, `started`) and `timeBonusesRef.current`, with
  one method per event handler:
  - `StartQuiz`, `OnSelect`, `OnNext`;
  - `Tick`, one run of the timer effect;
  - `ResetAll`, `SetHandle`, `SetDisplayName`;
  - `OnAvatarError`, the avatar `onError`;
  - `HandleDownload`.
  Every handler runs to completion before the next event. Each handler
  preserves the invariant `Valid()`:
  - the three per-question sequences have the quiz's length;
  - `current` indexes the quiz;
  - the stored bonuses are in `[0, 20]`, and only correct answers have one;
  - every question before `current` (all of them on the result screen) is
    resolved, and none after it;
  - `avatarIdx` is 0 or an index of the candidate list.
  `ComputedScore` is the `computedScore` loop. `CardFigures` gathers what
  the card shows.

Integer restatements used by the model:
- IQ: `Math.round(score / maxScore * 60)` is written
  `(120 * score + maxScore) / (2 * maxScore)`. `Scoring.Iq`'s contract
  states that this is the nearest integer. A tie rounds up, as `Math.round`
  does for a positive half.
- Badge: `score >= maxScore * 0.8` is written `5 * score >= 4 * maxScore`,
  and `score >= maxScore * 0.5` is written `2 * score >= maxScore`.
- These stand for the floating-point expressions of the source. They are
  assumptions of the model, not statements proved about IEEE doubles.

## Model

| member | source | states |
|---|---|---|
| Sampler.Swap | src/App.jsx:319 | the destructuring swap exchanges entries i and j and keeps every other entry and the length |
| Sampler.ShuffleFrom | src/App.jsx:317-320 | the loop iterations for positions i, i-1, ..., 1, each swapping entry i with entry draws[i], keep the length; its meaning is stated by ShuffleFromPermutes, ShuffleFromPick and ShuffleFromDistinct |
| Sampler.Shuffle | src/App.jsx:316-320 | the whole descending loop on a copy keeps the length; an empty bank is left as it is; ShufflePermutes and ShuffleIsPermutationOfPositions state the rest |
| Sampler.ShufflePermutes | src/App.jsx:316-320 | the shuffle loop only reorders its copy: the multiset of entries is that of the bank |
| Sampler.ShuffleFromPermutes | src/App.jsx:317-320 | the loop iterations from position i down to 1 preserve the multiset of entries |
| Sampler.ShuffleIsPermutationOfPositions | src/App.jsx:316-320 | shuffled entry k is the bank entry at position p[k], where p is a list of pairwise distinct, in-range bank positions |
| Sampler.ShuffleFromPick | src/App.jsx:317-320 | shuffling the entries at some positions equals picking the entries at the shuffled positions |
| Sampler.ShuffleFromDistinct | src/App.jsx:317-320 | the loop moves positions without duplicating one or leaving the range |
| Sampler.Sample | src/App.jsx:321 | the result has exactly min(n, \|arr\|) items |
| Sampler.SampleQuestions | src/App.jsx:315-322 | the in-place loop over an array copy returns the first min(n, \|arr\|) entries of the specified shuffle; the bank itself is a value and is not changed |
| Sampler.SampleWithinBank | src/App.jsx:315-322 | every sampled entry occurs in the sample at most as often as in the bank |
| Sampler.SampleAtDistinctPositions | src/App.jsx:315-322 | the sampled questions come from pairwise distinct bank positions (the bank may repeat a question, so this holds by position only) |
| Scoring.ScoreOf | src/App.jsx:366-377 | the score of the first n selections: 10 plus the stored bonus (or 0 without one) for each whose choice is the question's answerIndex, nothing for a missing question; its properties are the ScoreOf lemmas below |
| Scoring.Score | src/App.jsx:366-377 | the score over all selections, the value `computedScore` computes; ComputedScore is proved equal to it and ScoreBounds, ScoreIsMaxIff and ScoreDecomposes state its properties |
| Scoring.MaxScore | src/App.jsx:364 | 30 points per quiz question; ScoreBounds and ScoreIsMaxIff show it is the exact maximum of the score |
| Scoring.ScoreOfBounds | src/App.jsx:366-377 | with bonuses in [0, 20], the score of the first n questions is between 0 and 30 * n |
| Scoring.ScoreBounds | src/App.jsx:364-377 | with no more selections than questions and bonuses in [0, 20], 0 <= computedScore <= maxScore |
| Scoring.ScoreOfIsMax | src/App.jsx:366-377 | the first n questions score 30 * n if and only if each was answered correctly with the whole 20-point bonus |
| Scoring.ScoreIsMaxIff | src/App.jsx:364-377 | the score equals maxScore if and only if every question was answered correctly with 20 seconds left |
| Scoring.ScoreOfDecomposes | src/App.jsx:372-373 | when only correct answers carry a bonus, the score of the first n questions is 10 per correct answer plus the sum of their bonuses |
| Scoring.ScoreDecomposes | src/App.jsx:366-377 | the score is 10 points per correct answer plus the sum of the stored bonuses |
| Scoring.Iq | src/App.jsx:379-382 | 80 when maxScore <= 0; otherwise 80 plus the integer nearest to 60 * score / maxScore |
| Scoring.IqBetween | src/App.jsx:381 | a score ratio bracketed by two values gives an IQ offset bracketed by them |
| Scoring.IqBounds | src/App.jsx:379-382 | for 0 <= score <= maxScore and maxScore > 0, the IQ is in [80, 140] |
| Scoring.IqMonotone | src/App.jsx:379-382 | a higher score never gives a lower IQ |
| Scoring.BadgeOf | src/App.jsx:780-784 | Chad from 80% of maxScore, Rookie from 50%, Noob below, in integer form; BadgeMonotone, BadgeOfEmptyQuiz and BadgeAgreesWithIq state its properties |
| Scoring.Label | src/App.jsx:781-784 | the text shown for each badge; CardFigures returns it for the card's badge |
| Scoring.BadgeMonotone | src/App.jsx:780-784 | a higher score never gives a lower badge |
| Scoring.BadgeOfEmptyQuiz | src/App.jsx:780-781 | with maxScore 0, every non-negative score is a Chad |
| Scoring.BadgeAgreesWithIq | src/App.jsx:379-382 | Chad cards show an IQ of at least 128, Rookie cards one in [110, 128], Noob cards one in [80, 110] |
| JsText.Trim | src/App.jsx:25 | `trim` is TrimStart followed by TrimEnd; TrimIsSlice, TrimIsTrimmed and TrimIdempotent state what it returns |
| JsText.TrimStart | src/App.jsx:25 | leading white space is removed: the result is no longer and does not start with white space |
| JsText.TrimStartIsSuffix | src/App.jsx:25 | what TrimStart returns is a suffix of its input, and everything before it is white space |
| JsText.TrimEnd | src/App.jsx:25 | trailing white space is removed: the result is no longer and does not end with white space |
| JsText.TrimEndIsPrefix | src/App.jsx:25 | what TrimEnd returns is a prefix of its input, and everything after it is white space |
| JsText.TrimIsSlice | src/App.jsx:25 | trim returns a contiguous slice with only white space on either side of it, and white space at neither of its ends |
| JsText.TrimIsTrimmed | src/App.jsx:687 | a trimmed value (what the handle input stores) has no white space at either end |
| JsText.TrimIdempotent | src/App.jsx:687 | trimming twice is trimming once |
| JsText.StripLeadingAt | src/App.jsx:25 | exactly one leading `@` is removed, and a string without one is unchanged |
| JsText.Split | src/App.jsx:26 | the split has at least one piece |
| JsText.SplitJoin | src/App.jsx:26 | the pieces contain no separator, and joining them with it gives back the string |
| JsText.SplitAtSeparator | src/App.jsx:26 | splitting at a separator is splitting either side of it |
| JsText.SplitWithoutSeparator | src/App.jsx:26 | a string without the separator splits into itself alone |
| JsText.NonEmpty | src/App.jsx:26 | `filter(Boolean)` keeps no empty string and never grows the list |
| JsText.NonEmptyMembers | src/App.jsx:26 | a string is kept if and only if it is one of the pieces and it is non-empty |
| JsText.NonEmptyAppend | src/App.jsx:26 | filtering distributes over concatenation |
| JsText.Words | src/App.jsx:26 | every word is non-empty |
| JsText.WordsAreSpaceFree | src/App.jsx:26 | every word is non-empty, holds no space, and is one of the split pieces |
| JsText.WordsAtSpace | src/App.jsx:26 | the words of a + " " + b are those of a followed by those of b |
| JsText.WordsOfWord | src/App.jsx:26 | a non-empty string without spaces is one word; the empty string has none |
| JsText.UpperChar | src/App.jsx:34 | lower-case ASCII letters map to their capitals, and every other character is kept |
| JsText.ToUpper | src/App.jsx:34 | upper-casing works character by character and keeps the length |
| JsText.HexDigit | src/App.jsx:36 | a nibble is written as an upper-case hex digit |
| JsText.PercentByte | src/App.jsx:36 | a byte is written as `%` and two upper-case hex digits |
| JsText.Utf8 | src/App.jsx:36 | a character is one to four bytes, each below 256 |
| JsText.PercentBytes | src/App.jsx:36 | three output characters per byte, all from the URI-component alphabet |
| JsText.EncodeChar | src/App.jsx:36 | an unreserved character is kept as itself and any other is escaped |
| JsText.EncodeUriComponent | src/App.jsx:43 | the encoding is never shorter than its input, is empty only for the empty string, and contains only unreserved characters and `%` (so no `/`) |
| JsText.EncodeUnreserved | src/App.jsx:43 | a handle made only of unreserved characters is encoded as itself |
| Avatar.Candidates | src/App.jsx:41-53 | no candidates without a handle, four otherwise; CandidatesShape and CandidatesDistinct state what they are |
| Avatar.ProviderUrls | src/App.jsx:44-52 | every candidate URL starts with the provider, and the first three end in the encoded handle |
| Avatar.CandidatesShape | src/App.jsx:41-53 | no handle gives no candidates; otherwise there are four: the first three start with the provider and end in the encoded handle, and the last is the ghost URL |
| Avatar.CandidatesDistinct | src/App.jsx:44-52 | the four candidates are pairwise different URLs |
| Avatar.CandidatesOfPlainHandle | src/App.jsx:43-46 | for a handle of letters, digits and `_`, the first candidate is the X URL of the handle itself |
| Avatar.DisplaySrc | src/App.jsx:343-344 | `candidates[avatarIdx] \|\| ghost`: the candidate at the index, or the ghost URL; never empty |
| Avatar.DisplaySrcOfCandidates | src/App.jsx:343-344 | the card shows the candidate at avatarIdx, or the ghost URL when there is no handle |
| Avatar.ExportFetchUrl | src/App.jsx:454 | `candidates[0] ? candidates[0] : displayAvatarSrc`: the first candidate or the display source; non-empty when the display source is |
| Avatar.ExportFetchUrlOfHandle | src/App.jsx:454 | an export fetches the X URL of the handle whatever the fallback index; without a handle it fetches the ghost URL |
| Avatar.NameOnCard | src/App.jsx:754-755 | the name on the card is never empty: the display name, else "@" + handle, else "Brevis Learner" |
| Avatar.DownloadName | src/App.jsx:472 | `Brevis-IQ-${handle \|\| "anon"}.png`; DownloadNameParts states its three parts |
| Avatar.DownloadNameParts | src/App.jsx:472 | the file name is "Brevis-IQ-", then the handle (or "anon"), then ".png" |
| Avatar.InitialsText | src/App.jsx:25 | the name, or "Brevis Learner" when it is empty, trimmed and without one leading `@`; the InitialsOf lemmas below state what it gives |
| Avatar.InitialWords | src/App.jsx:26-28 | both words the initials are taken from are non-empty |
| Avatar.Initials | src/App.jsx:24-34 | there are always exactly two initials, and neither is an ASCII lower-case letter |
| Avatar.InitialsSvg | src/App.jsx:30-35 | the SVG document of the source's template with the initials as its only text |
| Avatar.Src | src/App.jsx:36 | the `src` string of an image source: a URL as itself, the initials image as `data:image/svg+xml;utf8,` followed by the encoded SVG; InitialsImageIsLocal and TruthyIffSrcNonEmpty state its properties |
| Avatar.TruthyIffSrcNonEmpty | src/App.jsx:348 | an image source is truthy exactly when its src string is non-empty |
| Avatar.ExportSrc | src/App.jsx:348 | with no override the card shows the display source; a truthy override, and in particular the initials image, wins; the result is always one of the two |
| Avatar.InitialsImageIsLocal | src/App.jsx:23-36 | the initials image is a `data:` URL, never one of the network candidates and never the ghost URL |
| Avatar.InitialsOfOneWord | src/App.jsx:25-29 | a one-word name gives its capitalised first letter and "I", from the default second word "IQ" |
| Avatar.InitialsOfTwoWords | src/App.jsx:25-29 | a two-word name gives the capitalised first letter of each word |
| Avatar.InitialsOfHandle | src/App.jsx:24-29 | for a trimmed handle that does not start with `@`, the initials of "@" + handle (the name behind the image when there is no display name) are those of the handle |
| Avatar.InitialsOfNoName | src/App.jsx:25-29 | with no name at all the initials are "BL", from "Brevis Learner" |
| Avatar.InitialsOfSanniDev | src/App.jsx:25-29 | "Sanni Dev" gives "SD" |
| Avatar.InitialsOfAtX | src/App.jsx:25-29 | "@x" gives "XI" |
| Avatar.InitialsOfHandleWithAt | src/App.jsx:24-29 | a handle typed with its own `@`, such as "@x", gives the card name "@@x"; only one `@` is removed, so the image shows "@I" while the handle's own initials are "XI" |
| Avatar.InitialsOfBareAt | src/App.jsx:25-29 | "@" gives "BI", from both default words |
| Avatar.Utf16 | src/App.jsx:29 | a character is one UTF-16 code unit exactly when it lies in the Basic Multilingual Plane |
| Avatar.InitialsDataUrlAsWritten | src/App.jsx:29-36 | as written, `initialsDataUrl` fails (encodeURIComponent throws) exactly when one of the two words starts outside the Basic Multilingual Plane |
| Avatar.AsWrittenFailsOnAstralWord | src/App.jsx:29-36 | a two-word name whose first word starts with an astral character gets no image as written, while the initials taken by character are that character and the second word's initial |
| Avatar.EmojiNameBreaksInitials | src/App.jsx:29-36 | "🚀 Dev" gets no image as written; by character its initials are the rocket and "D" |
| App.ClampBonus | src/App.jsx:416 | the bonus is in [0, 20]: the time left when it is in range, 0 below and 20 above |
| App.Fill | src/App.jsx:401-402 | `Array(n).fill(v)` has length n and every entry is v |
| App.BrevisIqApp.constructor | src/App.jsx:326-362 | the initial state is the home screen with no quiz, a 20-second timer and no card inputs, and it satisfies the invariant |
| App.BrevisIqApp.GoLearn | src/App.jsx:550 | the Learn button moves from home to the learn screen and changes nothing else |
| App.BrevisIqApp.StartQuiz | src/App.jsx:398-407 | the quiz is the sample of the bank; every selection is null and every bonus 0, for as many questions as the quiz has; current 0, 20 seconds, started, quiz screen; the card inputs are unchanged and the invariant holds |
| App.BrevisIqApp.OnNext | src/App.jsx:423-432 | before the last question: the next question with a fresh 20 seconds; after it: stopped, on the result screen, with current left at the last index; exactly one more question is resolved and the answers are unchanged |
| App.BrevisIqApp.OnSelect | src/App.jsx:409-421 | the choice is stored for the current question only; a bonus (the clamped time left) is stored only for a correct choice; then OnNext runs, so exactly one more question is resolved: the next question with a fresh 20 seconds, or the result screen with current and timeLeft as they were |
| App.BrevisIqApp.Tick | src/App.jsx:387-395 | off the quiz screen or when stopped, nothing changes; with time left, one second passes and nothing else moves; at zero the question is resolved unanswered, with no bonus, and the quiz moves on: the next question with a fresh 20 seconds, or, after the last one, stopped on the result screen with current and timeLeft as they were |
| App.BrevisIqApp.ResetAll | src/App.jsx:434-444 | back home with no quiz, no answers, no bonuses, current 0, 20 seconds, stopped, and empty handle and display name; clearing a non-empty handle also resets the avatar index, and the override is untouched |
| App.BrevisIqApp.SetHandle | src/App.jsx:687 | the stored handle is the trimmed input; the avatar index restarts at 0 exactly when the handle changes (the effect on `handle`) |
| App.BrevisIqApp.SetDisplayName | src/App.jsx:696 | the display name is stored as typed and nothing else changes |
| App.BrevisIqApp.DisplayAvatarSrc | src/App.jsx:343-344 | the card shows the candidate the fallback chain has reached, or the ghost URL without a handle |
| App.BrevisIqApp.CardAvatar | src/App.jsx:348 | without an override the image is the display source; an initials override is shown as the image |
| App.BrevisIqApp.OnAvatarError | src/App.jsx:737-750 | while a later candidate exists the index advances by one; after the last candidate (or with no handle) the override becomes the initials image of the name on the card |
| App.BrevisIqApp.HandleDownload | src/App.jsx:447-481 | off the result screen nothing happens. On it: the URL fetched is the handle's X URL (the ghost URL without a handle); the exported image is the fetched data on success and the initials image of the name on the card on failure; a file named after the handle is produced exactly when the snapshot succeeds; the override always ends null |
| App.BrevisIqApp.ComputedScore | src/App.jsx:366-377 | the loop's total is the specified score, and under the invariant it lies in [0, maxScore] |
| App.BrevisIqApp.CardFigures | src/App.jsx:768-784 | the card's score, maximum, IQ, badge and badge text are the specified ones; a non-empty quiz gives an IQ in [80, 140]; an empty one gives 80; on a non-empty quiz, a Chad has an IQ of at least 128 and a Noob one of at most 110 |

## Left out

- React scheduling is not modelled: render timing, the stale closures of the effect that calls `onNext`, batching of `setState`, and interleaving of the asynchronous export with other events. Every handler is one atomic step.
- The `setTimeout` of the timer effect is not modelled. A `Tick` with time left stands for one second passing. The `Tick` at zero is a separate step that takes no time: the effect calls `onNext` right after the render that shows 0. The real-time delays in `handleDownload` are not modelled either.
- The browser and the network are parameters. `fetchToDataURL` is an `Option<string>`: the data URL, or `None` for a failure. `htmlToImage.toPng` is a boolean. `document.createElement`/`link.click` become the returned file name.
- `alert` and `console.error` are not modelled.
- `cardRef.current` is modelled as "the result screen is shown", the only screen that renders the card.
- The uniformity of `Math.random` is not modelled, because it is a probabilistic property. The draws are injected and only their range is required.
- `iq` and the badge thresholds are floating point in the source. They are restated in integers (see above), and that restatement is an assumption of the model.
- `toUpperCase` is modelled on ASCII letters only. Unicode case mapping, including length-changing mappings, is not modelled.
- `Avatar.Src` builds the SVG text of the initials image. The XML itself is not interpreted.
- The SVG document keeps the source's constant markup. Only the initials inside it are reasoned about.
- The question bank is an arbitrary sequence of `QuizItem`s. Its 20-odd literal questions are static data and not part of the model.
- `src/main.jsx` is not part of this model. It is the ReactDOM bootstrap.
- Presentation is not modelled: the JSX markup, animations, CSS, the `cn` helper, the article list, iframes and the header logo's `onError` rewrite.
- `timeBonusesRef.current` is a sequence field reassigned by the handlers, not a shared mutable array.
- The initials image is held as `InitialsOf(name)`, not as its URL string. `Avatar.Src` gives the string.
- App.BrevisIqApp.CardAvatar: states the result only when there is no override or when the override is the initials image. A fetched data-URL override is shown when it is non-empty (`Avatar.ExportSrc` states the general case).
- App.BrevisIqApp.HandleDownload: says nothing about the exported image when the fetch returns an empty string. In that case the export falls back to the display source, as `Avatar.ExportSrc` states.
- A handle typed with a leading `@` is kept as typed, since the handle input only trims. The card name then shows two `@`s, and the initials image shows "@" as its first letter. `Avatar.InitialsOfHandleWithAt` states this case, and `Avatar.InitialsOfHandle` covers only handles without a leading `@`.
- The model does not reproduce the source's exception when the initials image of an astral first character is built. `OnAvatarError` and `HandleDownload` use the corrected, total initials image (see Findings).

## Findings

| source | as written | input that shows it | evidently intended | confidence | as-written member | corrected member |
|---|---|---|---|---|---|---|
| src/App.jsx:29 | `first[0]` and `second[0]` take the first UTF-16 code unit of each word. For a word starting outside the Basic Multilingual Plane this is a lone high surrogate. `encodeURIComponent` then throws a URIError at :36, so `onError` (:743) throws and `handleDownload`'s fallback (:462) rejects before the override is cleared | display name "🚀 Dev" | an initials image for every name, with the first character of each word | high, not executed | Avatar.InitialsDataUrlAsWritten, Avatar.EmojiNameBreaksInitials | Avatar.Initials, Avatar.AsWrittenFailsOnAstralWord |
