# notes-learner flashcards in Dafny

A model of the core of *notes-learner*, a browser app for studying "nuggets":
flashcards with a question (`T:` line) and an answer (`D:` line), grouped into
topics, and written as markdown files with a YAML frontmatter. The model
covers six parts of the app:

- **The data manager's import** (`dataManager.ts`). It builds a topic from the
  frontmatter. It scans the body line by line for `T:`/`D:` pairs. It merges
  the result into the collection stored under the browser storage key, and it
  reads, clears and exports that key.
- **The server-side topic loader** (`topicParser.ts`). It slugifies the topic
  name into an id. It splits the body into blank-line separated sections and
  reads one nugget per section. It falls back to a default topic when the file
  is missing or unreadable. The unused helper `parseNuggets` is modelled too.
- **The progress store** (`progressManager.ts`): the progress map, the streak
  key, and marking a nugget completed.
- **The carousel** (`NuggetCarousel.tsx`): the topic filter, paging with
  JavaScript's `%`, the card shown, its colour and the counter.
- **Review mode** (`ReviewMode.tsx`): the list of seen nuggets in a shuffled
  order, paging through it, and what is rendered.
- **The quote converter** (`convert_quotes.py`). It turns a text file of
  quotes into a topic file. The model proves what the two parsers above make
  of the converter's output.

## Modules

- `Wrappers`: `Option` and `Result`.
- `Seqs`: `filter`/`find` and keep-the-non-null, with their facts.
- `Text`: the string primitives.
  - JavaScript `trim` and Python `strip` are two separate white-space sets.
  - Also modelled: `startsWith`, `split`/`join`, ASCII `toLowerCase`, and
    `${n}` rendering.
- `JsNumber`: JavaScript numbers as `Int(v) | NaN`.
  - `+` and the truncating `%`.
  - `parseInt(s, 10)`.
- `Records`: the shared records.
  - `Topic`, `Nugget`, `Collection` and `ProgressEntry`.
  - A storage key's content: `Absent | Corrupt | Holds(value)`.
  - Nugget ids, and the topic-colour lookup.
- `DataManager`, `TopicParser`, `ProgressManager`, `NuggetCarousel`,
  `ReviewMode` and `ConvertQuotes`: one per source file.
- `QuoteRoundTrip`: the converter's output read back by both parsers.

Storage keys are class fields, and a `writes` field logs every `setItem` and
`removeItem`. This lets contracts say "written exactly once" or "nothing
written". React components are classes whose fields are their props and
state. Each handler is a method. What is rendered is a function of the fields.

## Behaviour worth knowing

- **Nugget purge on import.** `importData` drops stored nuggets whose `topicId`
  *starts with* the imported id, not only those equal to it
  (dataManager.ts:62). `DataManager.PrefixPurgeReachesSiblings` shows this:
  importing topic `js` removes the nuggets of a stored `js-basics` topic while
  keeping that topic.
- **Required frontmatter on import.** `importData` requires a non-empty
  frontmatter `id` as well as a `name` (dataManager.ts:27-30). It never
  derives the id from the name.
- **The loader's topic id.** The loader always takes the id from the slug of
  `name` and ignores any `id` key (topicParser.ts:65).
- **Default colours.** The two parsers use different ones: `#000000` in the
  importer and `#4A90E2` in the loader.
- **Empty imports.** A document that yields no nuggets still imports.
- **Marking a nugget completed again.** `markAsCompleted` rewrites the
  timestamp of an already completed nugget (`ProgressManager.MarkAgain`).
- **The streak.** `getCurrentStreak` only reads the stored streak; nothing in
  the core computes it.
- **The converter's header.** It has no `id` key, so the importer rejects its
  output (`DataManager.ImportFailure`). Only the loader accepts it as a topic.
  Both parsers read its body the same way (`QuoteRoundTrip`).

## Model

| member | source | states |
|---|---|---|
| Records.NuggetIdInjective | notes-learner/src/lib/dataManager.ts:44 | two nugget ids `${topicId}-${k}` are equal only when both the topic id and the number are equal |
| Records.FindTopic | notes-learner/src/components/NuggetCarousel.tsx:70 | `topics.find` returns the first topic with the id, and nothing only when no topic has it |
| Records.ColorOf | notes-learner/src/components/NuggetCarousel.tsx:68-72 | the colour is the first matching topic's colour, or `#000000` when there is no current nugget, no matching topic or an empty colour; never empty |
| Records.FirstIsUnique | notes-learner/src/components/ReviewMode.tsx:28 | the topic `find` picks is unique |
| JsNumber.Add | notes-learner/src/components/NuggetCarousel.tsx:46 | `+` on numbers: NaN when an operand is NaN, the sum otherwise |
| JsNumber.Rem | notes-learner/src/components/NuggetCarousel.tsx:46 | `%`: NaN for a zero divisor or NaN operand; otherwise the result is smaller than the divisor in size, has the dividend's sign, and equals the Euclidean remainder for a non-negative dividend |
| JsNumber.ParseInt | notes-learner/src/lib/progressManager.ts:22 | `parseInt(s, 10)` is a number exactly when, after leading white space and an optional sign, a digit follows |
| JsNumber.ParseIntReads | notes-learner/src/lib/progressManager.ts:22 | white space, an optional `+` or `-`, digits, then text not starting with a digit reads as the signed base-10 value of those digits |
| JsNumber.ParseDecimal | notes-learner/src/lib/progressManager.ts:22 | `parseInt` reads back a rendered natural number, whatever non-digit text follows it |
| DataManager.FrontmatterTopic | notes-learner/src/lib/dataManager.ts:20-30 | a topic exists exactly when `id` and `name` are non-empty; it takes them as they are and the colour defaults to `#000000` |
| DataManager.ScanLine | notes-learner/src/lib/dataManager.ts:36-51 | defines one step of the line scan: a trimmed-empty line is skipped, a `T:` line sets the pending question, a `D:` line with a pending question appends a nugget and clears it |
| DataManager.ScanBody | notes-learner/src/lib/dataManager.ts:33-52 | defines the nuggets of a body: the scan over its `\n`-separated lines from an empty batch and no question |
| DataManager.Merge | notes-learner/src/lib/dataManager.ts:57-64 | defines the merged collection: stored topics with another id then the topic; stored nuggets outside the id prefix then the batch |
| DataManager.Import | notes-learner/src/lib/dataManager.ts:8-76 | defines `importData`'s outcome: the frontmatter error, or the merge of the stored collection with the topic and the scanned batch |
| DataManager.ScanLineKeepsBatch | notes-learner/src/lib/dataManager.ts:36-52 | one scanned line keeps the batch well formed: ids `topicId-k` in order, owner `topicId`, non-empty question |
| DataManager.ScanLineCounts | notes-learner/src/lib/dataManager.ts:40-51 | a line emits at most one nugget, only as a `D:` line, and only by using up a pending question |
| DataManager.ScanInvariant | notes-learner/src/lib/dataManager.ts:33-52 | scanning only appends and keeps the batch well formed; it emits at most one nugget per `D:` line and per `T:` line |
| DataManager.ScanBodyShape | notes-learner/src/lib/dataManager.ts:33-52 | the batch of a body is well formed with pairwise distinct ids, and is no longer than its count of `D:` lines or of `T:` lines |
| DataManager.BlankLineSkipped | notes-learner/src/lib/dataManager.ts:37-38 | a line that trims to nothing changes nothing |
| DataManager.LaterQuestionWins | notes-learner/src/lib/dataManager.ts:40-41 | a second `T:` line discards an unanswered question |
| DataManager.OrphanAnswerIgnored | notes-learner/src/lib/dataManager.ts:42 | a `D:` line with no pending question is ignored |
| DataManager.AnswerEmits | notes-learner/src/lib/dataManager.ts:42-50 | a `D:` line answering a question appends a nugget numbered by the batch length, holding that question and the trimmed answer, and clears the question |
| DataManager.ScanContent | notes-learner/src/lib/dataManager.ts:33-52 | the line loop computes the scan of the body, which is a well-formed batch bounded by the `D:` and `T:` line counts |
| DataManager.Stored | notes-learner/src/lib/dataManager.ts:78-92 | the stored collection when the key parses, the empty collection when it is absent or corrupt |
| DataManager.ImportFailure | notes-learner/src/lib/dataManager.ts:11-30 | an import fails exactly when the frontmatter cannot be read or lacks a non-empty `id` or `name` |
| DataManager.MergeTopics | notes-learner/src/lib/dataManager.ts:60 | the imported topic is last; the rest are exactly the stored topics with another id, in their stored order and with each one as many times as it was stored |
| DataManager.MergeNuggets | notes-learner/src/lib/dataManager.ts:61-64 | the batch ends the list; before it are exactly the stored nuggets whose `topicId` does not start with the imported id, in their stored order and with each one as many times as it was stored |
| DataManager.ImportedCollection | notes-learner/src/lib/dataManager.ts:56-71 | a successful import is the merge of the stored collection with the frontmatter topic and the scanned batch |
| DataManager.MergeIdempotent | notes-learner/src/lib/dataManager.ts:57-64 | merging the same topic and batch again changes nothing |
| DataManager.ImportIdempotent | notes-learner/src/lib/dataManager.ts:8-76 | importing a document a second time stores the same collection as importing it once |
| DataManager.PrefixPurgeReachesSiblings | notes-learner/src/lib/dataManager.ts:62 | importing `js` removes the nuggets of a stored `js-basics` topic and keeps that topic |
| DataManager.DataStore.constructor | notes-learner/src/lib/dataManager.ts:5 | the data key starts with the given content and no writes |
| DataManager.DataStore.GetAllData | notes-learner/src/lib/dataManager.ts:78-92 | the stored collection, or the empty one when the key is absent or does not parse |
| DataManager.DataStore.ImportData | notes-learner/src/lib/dataManager.ts:8-76 | returns the import's outcome; a failure writes nothing; a success writes the merged collection exactly once and returns it |
| DataManager.DataStore.ClearData | notes-learner/src/lib/dataManager.ts:94-102 | removes the key with one write; reads then give the empty collection |
| DataManager.DataStore.ExportData | notes-learner/src/lib/dataManager.ts:104-114 | exports the stored collection, or the empty collection when nothing readable is stored |
| TopicParser.Slug | notes-learner/src/lib/topicParser.ts:65 | defines the topic id: the ASCII lower-cased name with each white-space run replaced by `-` |
| TopicParser.Hyphenate | notes-learner/src/lib/topicParser.ts:65 | `replace(/\s+/g, '-')` never lengthens the text and never empties a non-empty one |
| TopicParser.HyphenateChars | notes-learner/src/lib/topicParser.ts:65 | the result has no white space, and every character is `-` or comes from the input |
| TopicParser.HyphenateNoBlanks | notes-learner/src/lib/topicParser.ts:65 | text without white space is left unchanged |
| TopicParser.SlugShape | notes-learner/src/lib/topicParser.ts:65 | a slug has no white space, is empty only for an empty name, and slugifying it again changes nothing |
| TopicParser.HyphenateRun | notes-learner/src/lib/topicParser.ts:65 | a maximal run of white space becomes exactly one `-`, and the two sides are hyphenated independently |
| TopicParser.SlugRun | notes-learner/src/lib/topicParser.ts:65 | the slug of `a`, a run of white space and `b` is the slug of `a`, `-`, the slug of `b` |
| TopicParser.FileTopic | notes-learner/src/lib/topicParser.ts:64-68 | id is the slug of `name` or `default`, name defaults to `Default Topic`, colour to `#4A90E2` |
| TopicParser.Sections | notes-learner/src/lib/topicParser.ts:72 | defines the sections: the body split at `\n\n`, without those that trim to nothing |
| TopicParser.ReadLines | notes-learner/src/lib/topicParser.ts:81-87 | defines the texts a section's lines give: each `T:` line sets the question, each other `D:` line the description |
| TopicParser.SectionCandidate | notes-learner/src/lib/topicParser.ts:74-96 | defines what section `i` yields: a nugget with id `topicId-i` when both texts are non-empty, else nothing |
| TopicParser.SectionNuggets | notes-learner/src/lib/topicParser.ts:71-97 | defines the nuggets of a body: the candidates of its sections that are present, in order |
| TopicParser.Load | notes-learner/src/lib/topicParser.ts:46-112 | defines `loadTopic`'s result: the default topic and no nuggets for a missing or unreadable file, else the slug topic and its section nuggets |
| TopicParser.ReadRawIsReadLines | notes-learner/src/lib/topicParser.ts:76-87 | reading every trimmed line is the same as reading the trimmed lines that are non-empty |
| TopicParser.LastQuestionWins | notes-learner/src/lib/topicParser.ts:81-84 | in a section the last `T:` line decides the question; with none the question is unchanged |
| TopicParser.LastAnswerWins | notes-learner/src/lib/topicParser.ts:84-86 | in a section the last `D:` line not starting with `T:` decides the description; with none it is unchanged |
| TopicParser.CandidatesAt | notes-learner/src/lib/topicParser.ts:74-97 | the candidate at position `k` is the one built from section `k` and numbered by its section position |
| TopicParser.SectionNuggetsShape | notes-learner/src/lib/topicParser.ts:71-97 | at most one nugget per non-blank section, in section order. Each id is `topicId-i` for its section index `i`, its two texts are what reading that section's lines gives, and both are non-empty. Every section with both texts yields one |
| TopicParser.SectionNuggetIdsDistinct | notes-learner/src/lib/topicParser.ts:91 | the nuggets of one file have pairwise distinct ids |
| TopicParser.ReadSection | notes-learner/src/lib/topicParser.ts:76-87 | the loop over a section's raw lines computes what reading its trimmed non-empty lines gives |
| TopicParser.ReadSections | notes-learner/src/lib/topicParser.ts:74-97 | the section loop keeps exactly the sections whose question and description are both non-empty, numbered by section index |
| TopicParser.LoadTopic | notes-learner/src/lib/topicParser.ts:46-112 | a missing or unreadable file gives the default topic and no nuggets; otherwise the slug-named topic and its section nuggets |
| TopicParser.LineRest | notes-learner/src/lib/topicParser.ts:13-14 | what `.+` can match: the longest prefix without a line terminator |
| TopicParser.Capture | notes-learner/src/lib/topicParser.ts:13-14 | a captured group is non-empty and contains no line terminator |
| TopicParser.CaptureLeftmost | notes-learner/src/lib/topicParser.ts:13-14 | `match(/<key>(.+)/)` fails exactly when no position holds `key` followed by a character other than a line terminator; otherwise it captures the rest of the line after the leftmost such position |
| TopicParser.Blocks | notes-learner/src/lib/topicParser.ts:9 | defines the blocks: the content split at `\n\n`, without the empty ones |
| TopicParser.ParseNuggets | notes-learner/src/lib/topicParser.ts:7-27 | defines `parseNuggets`: the candidates of the blocks that are present, in order |
| TopicParser.BlockCandidates | notes-learner/src/lib/topicParser.ts:11-25 | each block yields the candidate built from it, numbered by its block index |
| TopicParser.ParseNuggetsShape | notes-learner/src/lib/topicParser.ts:7-27 | at most one nugget per non-empty block, in order, with id `nugget-i` for block index `i`, an empty `topicId`, and a nugget for every block where both patterns match |
| ProgressManager.ProgressStore.GetProgress | notes-learner/src/lib/progressManager.ts:5-15 | defines `getProgress` as the parse-or-empty reading of the progress key |
| ProgressManager.ProgressStore.GetCurrentStreak | notes-learner/src/lib/progressManager.ts:17-27 | defines `getCurrentStreak` as the reading of the streak key |
| ProgressManager.ReadProgress | notes-learner/src/lib/progressManager.ts:5-15 | the stored map, or the empty map when the key is absent or corrupt |
| ProgressManager.Marked | notes-learner/src/lib/progressManager.ts:33-34 | the map gains the nugget's key, with a completed entry at the given time, and every other entry is unchanged |
| ProgressManager.MarkAgain | notes-learner/src/lib/progressManager.ts:29-39 | marking again keeps the nugget completed and only replaces its timestamp |
| ProgressManager.MarksCommute | notes-learner/src/lib/progressManager.ts:29-39 | marks of two different nuggets can happen in either order |
| ProgressManager.Streak | notes-learner/src/lib/progressManager.ts:17-27 | an absent or empty key reads as 0, anything else as `parseInt` of it |
| ProgressManager.StreakOfDecimal | notes-learner/src/lib/progressManager.ts:21-22 | a stored decimal streak reads back as its number |
| ProgressManager.ProgressStore.constructor | notes-learner/src/lib/progressManager.ts:9 | the keys start with the given contents and no writes |
| ProgressManager.ProgressStore.MarkAsCompleted | notes-learner/src/lib/progressManager.ts:29-39 | writes the progress map once: the map read before, with the nugget marked completed at `now`; other entries and the streak are untouched |
| NuggetCarousel.Visible | notes-learner/src/components/NuggetCarousel.tsx:20-23 | defines the filtered list: every nugget for `all`, else the nuggets whose `topicId` is the selection |
| NuggetCarousel.Next | notes-learner/src/components/NuggetCarousel.tsx:46 | defines the next index as `(prev + 1) % length` on JavaScript numbers |
| NuggetCarousel.Prev | notes-learner/src/components/NuggetCarousel.tsx:50 | defines the previous index as `(prev - 1 + length) % length` on JavaScript numbers |
| NuggetCarousel.VisibleExactly | notes-learner/src/components/NuggetCarousel.tsx:20-26 | `all` shows every nugget; another selection shows exactly the nuggets of that topic, in order and with each one as many times as it is in the list |
| NuggetCarousel.NextWraps | notes-learner/src/components/NuggetCarousel.tsx:45-47 | on a non-empty list, next moves one step forward and wraps from the last card to the first |
| NuggetCarousel.PrevWraps | notes-learner/src/components/NuggetCarousel.tsx:49-51 | on a non-empty list, previous moves one step back and wraps from the first card to the last |
| NuggetCarousel.NextPrevInverse | notes-learner/src/components/NuggetCarousel.tsx:45-51 | previous undoes next, and next undoes previous |
| NuggetCarousel.EmptyPaging | notes-learner/src/components/NuggetCarousel.tsx:45-51 | paging an empty list, or from NaN, gives NaN |
| NuggetCarousel.NextTimesMod | notes-learner/src/components/NuggetCarousel.tsx:45-47 | `k` steps forward from `i` reach `(i + k) mod n` |
| NuggetCarousel.FullCircle | notes-learner/src/components/NuggetCarousel.tsx:45-47 | `n` steps forward through `n` cards return to the start |
| NuggetCarousel.At | notes-learner/src/components/NuggetCarousel.tsx:69 | indexing gives a nugget exactly for an integer index within the list |
| NuggetCarousel.Carousel.constructor | notes-learner/src/components/NuggetCarousel.tsx:14-16 | index 0, all nuggets shown, `all` selected |
| NuggetCarousel.Carousel.SelectTopic | notes-learner/src/components/NuggetCarousel.tsx:20-26 | a new selection refilters and resets the index to 0; re-selecting the current topic changes nothing |
| NuggetCarousel.Carousel.ReceiveNuggets | notes-learner/src/components/NuggetCarousel.tsx:20-26 | a new nugget list is refiltered under the current selection and the index resets to 0 |
| NuggetCarousel.Carousel.GoToNext | notes-learner/src/components/NuggetCarousel.tsx:45-47 | the index becomes `(i + 1) % n`; the state stays valid and nothing else changes |
| NuggetCarousel.Carousel.GoToPrevious | notes-learner/src/components/NuggetCarousel.tsx:49-51 | the index becomes `(i - 1 + n) % n`; the state stays valid and nothing else changes |
| NuggetCarousel.Carousel.CurrentTopicColor | notes-learner/src/components/NuggetCarousel.tsx:68-72 | defines the colour as the topic colour of the nugget at the index |
| NuggetCarousel.Carousel.Card | notes-learner/src/components/NuggetCarousel.tsx:113-118 | defines the card: none for an empty list, else the nugget at the index |
| NuggetCarousel.Carousel.Counter | notes-learner/src/components/NuggetCarousel.tsx:133-135 | defines the counter as `currentIndex + 1` and the list length |
| NuggetCarousel.Carousel.ShownPosition | notes-learner/src/components/NuggetCarousel.tsx:113-134 | a non-empty list shows the card at the index, and the counter lies between 1 and the length |
| NuggetCarousel.Carousel.ShownColor | notes-learner/src/components/NuggetCarousel.tsx:68-72 | the shown card's colour is that of the first topic with its `topicId`, else the fallback |
| ReviewMode.Seen | notes-learner/src/components/ReviewMode.tsx:19 | defines the seen nuggets as those with a progress entry |
| ReviewMode.SeenExactly | notes-learner/src/components/ReviewMode.tsx:19 | the seen nuggets are exactly those with a progress entry, in their order and with each one as many times as it is in the list |
| ReviewMode.NextReview | notes-learner/src/components/ReviewMode.tsx:32-34 | the next index stays inside the list, moving forward and wrapping from the last card to the first |
| ReviewMode.ReviewSession.constructor | notes-learner/src/components/ReviewMode.tsx:14-15 | an empty review list at index 0 |
| ReviewMode.ReviewSession.Reload | notes-learner/src/components/ReviewMode.tsx:17-24 | the review list becomes the shuffled seen nuggets: exactly those with a progress entry, with as many items as the seen list; the index is kept |
| ReviewMode.ReviewSession.HandleNext | notes-learner/src/components/ReviewMode.tsx:32-34 | the index moves to the next position, inside the list |
| ReviewMode.ReviewSession.CurrentTopicColor | notes-learner/src/components/ReviewMode.tsx:26-30 | defines the colour as the topic colour of the nugget at the index, none past the end |
| ReviewMode.ReviewSession.Render | notes-learner/src/components/ReviewMode.tsx:36-58 | the empty-list message exactly when nothing is to review; otherwise the card at the index (none when the index is past the end), the position `index + 1` of the total, and a non-empty colour |
| ReviewMode.StaleIndexScenario | notes-learner/src/components/ReviewMode.tsx:17-34 | after paging to the second of two cards, a reload leaving one card renders no card at position 2 of 1; the next "Next Review" renders the first card at position 1 of 1 |
| ConvertQuotes.Entry | convert_quotes.py:25 | defines one quote's entry `T: Quote\nD: <quote>\n` |
| ConvertQuotes.Quotes | convert_quotes.py:19-26 | defines the quotes as the stripped lines that are non-empty |
| ConvertQuotes.Body | convert_quotes.py:35 | defines the text after the header: the entries joined with `\n` |
| ConvertQuotes.Output | convert_quotes.py:33-35 | defines the text written: the header, then the body |
| ConvertQuotes.QuotesSnoc | convert_quotes.py:19-26 | one more input line adds its stripped text as a quote exactly when that text is non-empty |
| ConvertQuotes.QuotesShape | convert_quotes.py:19-26 | the quotes are exactly the non-empty stripped lines, in input order |
| ConvertQuotes.BlankLineIgnored | convert_quotes.py:21 | a line that strips to nothing does not change the quotes |
| ConvertQuotes.EntriesSnoc | convert_quotes.py:25 | one more quote adds its entry at the end |
| ConvertQuotes.OutputShape | convert_quotes.py:25-35 | one entry `T: Quote\nD: <quote>\n` per quote, in order; no quotes gives only the header |
| ConvertQuotes.ConvertQuotesFile | convert_quotes.py:1-35 | the loop writes the header followed by the entries of the non-empty stripped lines, joined with newlines |
| QuoteRoundTrip.SplitBodyLines | convert_quotes.py:25-35 | the converter's body splits into three lines per quote: `T: Quote`, `D: <quote>`, and an empty line |
| QuoteRoundTrip.ScannerReadsQuotes | notes-learner/src/lib/dataManager.ts:33-52 | the importer's scanner reads the converter's body as one nugget per quote, numbered in order, with question `Quote` and the trimmed quote as answer |
| QuoteRoundTrip.SplitBodySections | notes-learner/src/lib/topicParser.ts:72 | the converter's body splits into one section per quote |
| QuoteRoundTrip.SectionOfQuote | notes-learner/src/lib/topicParser.ts:74-96 | a converted section yields the quote's nugget, or none when the quote trims to nothing in JavaScript |
| QuoteRoundTrip.LoaderReadsQuotes | notes-learner/src/lib/topicParser.ts:71-97 | the loader reads the converter's body as the same nuggets as the scanner, as long as every quote is visible to JavaScript's `trim` |
| QuoteRoundTrip.ByteOrderMarkScanned | notes-learner/src/lib/dataManager.ts:42-49 | a quote made of U+FEFF alone gives the scanner a nugget with an empty answer |
| QuoteRoundTrip.ByteOrderMarkDropped | notes-learner/src/lib/topicParser.ts:89 | the loader drops the same quote's section |
| QuoteRoundTrip.StripNoNewline | convert_quotes.py:20 | stripping a line read from a file leaves no newline in it |
| QuoteRoundTrip.QuoteVisible | convert_quotes.py:20 | a stripped quote not starting with U+FEFF survives JavaScript's `trim` |
| QuoteRoundTrip.ConverterRoundTrip | convert_quotes.py:1-35 | both parsers read the converter's output body as one nugget per non-blank input line, in order, with ids `topicId-0, 1, …` |

`ReviewMode.StaleIndexScenario` walks through the index kept across a reload
(ReviewMode.tsx:17-24). Two cards are seen and the user pages to the second.
A reload then leaves one card while the index stays at 1. The card component
receives no nugget and shows its "No nugget available" placeholder, under
"Reviewing 2 of 1", until the next "Next Review".

## Left out

- Frontmatter parsing (gray-matter/YAML) is not modelled. Its outcome is an
  input: a string-to-string map plus the body, or a failure. A YAML value that
  is not a string (a number, a list) is not modelled. So is YAML's reading of
  `color: #4A90E2` as a comment.
- JSON text is not modelled. Stored values are `Absent`, `Corrupt` (does not
  parse) or `Holds(value)`. A stored value of the wrong shape is not
  modelled, and neither is the text `exportData` renders.
- `isServer` checks are not modelled: the model is the browser path.
- Storage write failures are not modelled. `setItem` and `removeItem` can
  throw (a full quota, disabled storage). `importData` then rethrows after
  the scan (dataManager.ts:72-75). `clearData` and `markAsCompleted` log the
  error and carry on (dataManager.ts:99-101, progressManager.ts:36-38).
  `DataStore.ImportData`, `DataStore.ClearData` and
  `ProgressStore.MarkAsCompleted` model every write as succeeding.
- `console` logging is not modelled.
- The file system is not modelled. `loadTopic` receives the file as missing,
  unreadable or found. The converter receives its lines and returns the text
  it writes. `getAllTopics` (a directory listing) is not part of this model.
- The clock is a parameter: `markAsCompleted` receives the ISO timestamp.
- Randomness is a parameter. Review mode receives the shuffled list, with the
  precondition that it is a permutation of the seen nuggets.
- `progressManager.getAllProgress` is called by review mode but does not exist
  in `progressManager.ts`. The progress map is a parameter of the reload.
- React scheduling is not modelled. Handlers are state changes applied one at
  a time. Rendering is a function of the state.
- The carousel's auto-advance timer (NuggetCarousel.tsx:29-43) is not
  modelled. The keyboard handler (NuggetCarousel.tsx:54-65) is not modelled
  either. Both call `goToNext`/`goToPrevious` through a closure from the first
  render, so they page over the first filtered list. Only the buttons'
  behaviour is modelled.
- Animation and styling are not modelled.
- `TopicParser.Slug` lower-cases only the ASCII letters A-Z. Unicode case
  mapping is not modelled.
- JavaScript numbers are unbounded integers or NaN. Floating-point precision
  is not modelled; indices and streaks stay far below 2^53.
- `JsNumber.ParseInt`: digits beyond double precision round in JavaScript but
  not in the model.
- `TopicParser.Capture` models the regex `/T: (.+)/` by its leftmost match.
  The key is followed by the longest run of characters other than the line
  terminators `\n`, `\r`, U+2028 and U+2029. Regex features beyond this
  pattern are not modelled.
- `TopicParser.ReadSection` loops over the raw lines and trims each one,
  skipping those that trim to nothing. The source first builds the trimmed,
  non-empty list and then loops. `TopicParser.ReadRawIsReadLines` proves the
  two equal, and the contract is stated on the source's order.
- `QuoteRoundTrip.ConverterRoundTrip` assumes what a file's lines satisfy: a
  newline only at the end. It needs no stripped quote to start with U+FEFF,
  because `ByteOrderMark*` show that the two parsers then disagree. It covers
  the body with or without the newline after the header's closing `---`. What
  the frontmatter parser hands over beyond that is not modelled.
- The remaining components (settings, statistics, help, the data-manager page)
  are outside the core and not modelled.
