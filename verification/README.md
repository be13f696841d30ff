# Dictation trainer core, in Dafny

This project models the practice engine of a browser-based subtitle
dictation trainer. The learner loads a video and its SRT subtitles and
works through them line by line:

- **LISTENING**: the line plays and pauses at its end.
- **INPUT**: the learner types each word into its own box.
- **FEEDBACK**: the answer is compared with the line.

Around that loop sit:

- a tokenizer and two word-matching policies;
- the SRT parser;
- the player's polling, seeking and scrubbing rules;
- the blur-reveal mode;
- saved lines and per-video progress;
- keyboard shortcut dispatch;
- the upload form;
- the export of a line, or of a word with its definition, as an Anki note.

Everything is pure functions over immutable datatypes:

- Subtitle times, audio padding and capture windows are integer milliseconds.
- The video element is a record `Media(currentTime, duration, playing)`, with its clock kept in milliseconds.
- Storage is an in-memory sequence or map.
- Each event handler is a function from the old state to the new one.

The modules follow the program's files:

| module | models |
|---|---|
| `Base`, `Chars`, `Strings` | Option/Result, character classes (JavaScript `\s`, `\p{L}`, `\p{N}`, per-character lower-casing) and the string helpers the code uses (`trim`, `split`, `join`, `includes`, `padStart`) |
| `Tokenizer`, `TokenizerExamples` | utils/textTokenizer.ts and the vectors of the test scripts |
| `Srt`, `SrtFormat` | utils/srtParser.ts, and an SRT writer used to state the parser's round trip |
| `Practice` | hooks/usePracticeSession.ts: the session record and section/line navigation |
| `Player` | hooks/useVideoPlayer.ts: the poll step, the seek-on-line-change rule, play/pause/replay, the progress scrub |
| `Actions` | hooks/usePracticeActions.ts |
| `Answer` | components/InputFeedback.tsx |
| `Blur` | components/BlurSubtitle.tsx |
| `Layout` | components/PracticeLayout.tsx |
| `Storage` | utils/storage.ts |
| `SavedLines`, `Library` | hooks/useSavedLines.ts, components/SavedLibrary.tsx |
| `VideoStorage` | utils/videoStorage.ts (record bookkeeping; the database is a map) |
| `Shortcuts` | hooks/useKeyboardShortcuts.ts |
| `Upload` | components/UploadSection.tsx |
| `SettingsAnki` | components/SettingsAnki.tsx |
| `AnkiNote` | `addNote` in utils/anki.ts |
| `Capture` | hooks/useAnkiIntegration.ts |

## Model

| member | source | states |
|---|---|---|
| Tokenizer.Tokenize | utils/textTokenizer.ts:23-60 | concatenating the token values gives back the text exactly; no token is empty; token `i` carries index `i` |
| Tokenizer.TokenizeFrom | utils/textTokenizer.ts:31-57 | from any position the tokens cover the rest of the text losslessly and are numbered consecutively from the running index |
| Tokenizer.TokenShapes | utils/textTokenizer.ts:31 | every token has its class's shape (a letter/digit run with at most one apostrophe-letter tail, one punctuation character, or a whitespace run) and is maximal: the next token cannot extend it |
| Tokenizer.ShapesFrom | utils/textTokenizer.ts:31-57 | the shape and maximality of every token, by induction over the scan |
| Tokenizer.LeadShape | utils/textTokenizer.ts:31 | the first match of the token pattern at a position is well-shaped and maximal |
| Tokenizer.RunIsLongest | utils/textTokenizer.ts:31 | a run of a character class is the unique maximal prefix of that class |
| Tokenizer.WordTokensExact | utils/textTokenizer.ts:65-67 | the word tokens are exactly the WORD tokens of the line: each is one, none is missed, and their order is kept |
| Tokenizer.WordTokensFrom | utils/textTokenizer.ts:65-67 | every selected token is a WORD token of the input |
| Tokenizer.WordTokensOrdered | utils/textTokenizer.ts:65-67 | the selected tokens keep the original order (strictly increasing indices) |
| Tokenizer.WordTokensComplete | utils/textTokenizer.ts:65-67 | every WORD token of the input is selected |
| Tokenizer.IsInputCorrectFlexibleCase | utils/textTokenizer.ts:83-106 | an accepted input is non-empty after trimming, has the target's trimmed length, and also passes the case-insensitive check |
| Tokenizer.FirstLetterLower | utils/textTokenizer.ts:96-103 | words equal but for the case of their first letter lower-case alike, so the flexible policy never accepts what the case-insensitive one rejects |
| Tokenizer.FlexibleOnWords | utils/textTokenizer.ts:83-106 | on words without edge spaces the policy accepts exactly equal lengths, first letters equal up to case and identical remainders |
| Tokenizer.FlexibleCaseCharacterization | utils/textTokenizer.ts:83-106 | accepted iff the trimmed strings have equal non-zero length, their first characters agree after lower-casing, and the rest agree exactly |
| Tokenizer.FlexibleCaseReflexive | utils/textTokenizer.ts:83-106 | any word that is non-blank after trimming matches itself |
| Tokenizer.FlexibleCaseSymmetric | utils/textTokenizer.ts:83-106 | the flexible policy does not depend on which side is the input |
| Tokenizer.FlexibleCaseAccepts | test-flexible-case.js:79-121 | the accepting vectors of the test script: ("Miren","miren"), ("miren","Miren"), ("Oigan","Oigan") |
| Tokenizer.FlexibleCaseRejects | test-flexible-case.js:79-121 | the rejecting vectors: ("mirEn","miren"), ("dicen","dice"), ("entrada","entrad") |
| Tokenizer.FlexibleNeedsSameTail | utils/textTokenizer.ts:101-103 | a difference after the first letter is always a mistake |
| Tokenizer.RejectsLength | test-flexible-case.js:79-121 | "dicen" against "dice" and "entrada" against "entrad" are rejected for their length |
| Tokenizer.RejectsInnerCase | test-flexible-case.js:79-121 | "mirEn" against "miren" is rejected: the case of an inner letter matters |
| Tokenizer.AllWordsCorrectRejects | utils/textTokenizer.ts:126-154 | under either policy, a count of inputs other than the number of words, or any empty input, makes the line incorrect |
| Tokenizer.FlexibleAllImpliesInsensitiveAll | utils/textTokenizer.ts:143-154 | a line accepted word by word under the flexible policy is accepted under the case-insensitive one |
| Tokenizer.CompareWords | utils/textTokenizer.ts:173-191 | one result per word token, in order, with that token's index and text; a missing or empty input is never correct; all results are correct with a full input array iff the flexible all-words check holds |
| Tokenizer.CompareOne | utils/textTokenizer.ts:180-189 | one entry holds the word, its index, the input or the empty string, and the flexible verdict; an empty input gets a false verdict, standing for the falsy `''` JavaScript's `&&` yields there |
| Tokenizer.CompareEach | utils/textTokenizer.ts:177-188 | the loop yields one entry per word, entry k judging word k against input k or the empty string |
| Tokenizer.AllComparedCorrect | utils/textTokenizer.ts:173-191 | when each result judges its word against its input, every result is correct with a full input array iff the flexible all-words check holds |
| Tokenizer.ReconstructPieces | utils/textTokenizer.ts:113-121 | the rebuilt text is the tokens in order, with each non-word token verbatim and the k-th word replaced by the k-th input, or by "" when absent |
| Tokenizer.ReconstructFromPieces | utils/textTokenizer.ts:113-121 | the recursive rebuild equals the piece-by-piece description |
| Tokenizer.ReconstructRoundTrip | utils/textTokenizer.ts:113-121 | feeding the word values back as inputs gives back the original text |
| TokenizerExamples.TokenizeContraction | test-tokenizer.js:69-72 | "it's okay!" tokenizes as Word "it's", Space, Word "okay", Punctuation "!", indexed 0-3 |
| Srt.NumberValueDigits | utils/srtParser.ts:6-7 | a field of decimal digits reads as its decimal value |
| Srt.NumberValueBlank | utils/srtParser.ts:6-7 | a blank field reads as 0, as JavaScript's Number("") does |
| Srt.NumberValuePadded | utils/srtParser.ts:6-7 | surrounding whitespace does not change a field's value |
| Srt.NumberValueRejects | utils/srtParser.ts:6-7 | a field holding any other character is not a number (NaN) |
| Srt.TimeToMs | utils/srtParser.ts:4-8 | a converted timestamp is non-negative and came from a comma-separated string whose first part has at least three colon-separated fields |
| SrtFormat.TimestampRoundTrip | utils/srtParser.ts:4-8 | "HH:MM:SS,mmm" reads back as H·3600000 + M·60000 + S·1000 + ms for every non-negative millisecond time |
| Srt.StripTags | utils/srtParser.ts:40 | the result holds no complete `<...>` tag, is no longer than its input, and takes its characters from the input |
| Srt.StripTagsPlain | utils/srtParser.ts:40 | text without '<' is left unchanged |
| Srt.Normalize | utils/srtParser.ts:12 | no carriage return survives line-ending normalisation |
| Srt.NormalizeUnix | utils/srtParser.ts:12 | data with no carriage return is left unchanged |
| Srt.FindTimingLine | utils/srtParser.ts:23-29 | the timing line is the first line containing "-->", and is absent exactly when no line contains it |
| Srt.CueOf | utils/srtParser.ts:32-43 | a kept cue has non-empty trimmed text and two non-negative times |
| Srt.ParseBlock | utils/srtParser.ts:19-51 | a block yields a cue only when it has at least two lines after trimming and a timing line; the cue's text is non-empty and trimmed |
| Srt.ParseEach | utils/srtParser.ts:18 | each block is parsed on its own: a dropped block does not affect the others |
| Srt.Number | utils/srtParser.ts:44-49 | the kept cues are numbered consecutively from the counter, in order, and each comes from a parsed block |
| Srt.NumberAppend | utils/srtParser.ts:16-49 | numbering a concatenation continues the count of the first part without gaps |
| Srt.ParseSrt | utils/srtParser.ts:10-56 | ids are 1, 2, 3, … without gaps; there are no more cues than blocks; every cue is well-formed |
| SrtFormat.ParseBlockRoundTrip | utils/srtParser.ts:19-51 | a written block "id / start --> end / text" parses back to its cue |
| SrtFormat.ParseWriteRoundTrip | utils/srtParser.ts:10-56 | parsing a written SRT file returns every cue, numbered from 1 |
| SrtFormat.WriteHasNoCarriageReturn | utils/srtParser.ts:12 | written data is already normalised |
| Practice.Initial | hooks/usePracticeSession.ts:43-52 | a new session is on section 0, line 0, in LISTENING, with no dialog, no auto-advance, nothing playing and export idle |
| Practice.SwitchSection | hooks/usePracticeSession.ts:55-75 | an out-of-range index changes nothing; otherwise the section's lines become active at line 0 in LISTENING, the dialog closes, the UI's playing flag is cleared (the element itself is not paused) and the clock moves to the first line's start (or the section's start); validity is kept |
| Practice.SwitchSectionIdempotent | hooks/usePracticeSession.ts:55-75 | switching to the same section twice is the same as once |
| Practice.Continue | hooks/usePracticeSession.ts:77-95 | before the last line: next line, LISTENING, export idle; on the last line the index stays and the section (or, in the last section, the practice) is reported complete |
| Practice.ContinueWalks | hooks/usePracticeSession.ts:82-85 | n continues before the end move exactly n lines and touch nothing else |
| Practice.ContinueReachesEnd | hooks/usePracticeSession.ts:77-95 | from any line, continuing reaches the last line, and the next continue reports the end while staying there |
| Practice.NextSection | hooks/usePracticeSession.ts:97-102 | moving past the last section changes nothing; validity is kept |
| Practice.NextSectionAtLast | hooks/usePracticeSession.ts:97-102 | in the last section the next-section action is a no-op |
| Player.WithProgress | hooks/useVideoPlayer.ts:73-75 | progress becomes currentTime/duration·100 only when the duration is non-zero |
| Player.ProgressIsPercentage | hooks/useVideoPlayer.ts:73-75 | with the clock inside the video, progress stays within 0..100 |
| Player.Poll | hooks/useVideoPlayer.ts:50-76 | no video or no current line: nothing happens; a playing line at or past its end pauses the video exactly at endTime and LISTENING moves to INPUT, auto-advance continues once with the flag cleared, otherwise it only pauses; a paused player or a line not yet at its end only has its progress recomputed |
| Player.PollFiresOnce | hooks/useVideoPlayer.ts:58-71 | a second poll after a boundary transition does nothing |
| Player.LineChangeSeek | hooks/useVideoPlayer.ts:97-109 | in LISTENING the clock snaps to the line's start iff it is more than 0.5 s before the start or after the end, and playback starts |
| Player.LineChangeSeekIdempotent | hooks/useVideoPlayer.ts:97-109 | after the seek the clock lies within the tolerance window, so a second seek changes nothing |
| Player.ReplayCurrent | hooks/useVideoPlayer.ts:127-134 | replay moves the clock to the line's start, plays, and sets auto-advance to the argument |
| Player.TogglePlay | hooks/useVideoPlayer.ts:112-125 | playing pauses; paused in INPUT or FEEDBACK replays the line; paused in LISTENING plays |
| Player.TogglePlayTwice | hooks/useVideoPlayer.ts:112-125 | in LISTENING two toggles restore the player |
| Player.ReplayThenPollPlays | hooks/useVideoPlayer.ts:50-76 | right after a replay the poll lets the line play on |
| Player.ProgressSeek | hooks/useVideoPlayer.ts:136-160 | the target section is the first containing the new time; in another section the line is the first containing it, else 0; in the same section a line is chosen only if one contains the time |
| Player.SectionAt | hooks/useVideoPlayer.ts:147 | the index found is the first section holding the time; none is found exactly when no section holds it |
| Player.LineAt | hooks/useVideoPlayer.ts:152 | the index found is the first line whose span (end included) holds the time; none is found exactly when no line holds it |
| Actions.Skip | hooks/usePracticeActions.ts:80-90 | previous acts only above line 0 and next only below the last line, each moving one line and resetting to LISTENING and idle; otherwise nothing changes |
| Actions.SkipStaysInRange | hooks/usePracticeActions.ts:80-90 | from a valid line, skipping stays within the section |
| Actions.SkipNextThenPrev | hooks/usePracticeActions.ts:80-90 | next then previous returns to the line |
| Actions.SeekTo | hooks/usePracticeActions.ts:93-104 | another section switches the active lines and section; the same section changes only the line; both reset mode and status |
| Actions.ProgressSeek | hooks/usePracticeActions.ts:92-113 | the scrub keeps the session valid and does nothing more when no line is targeted |
| Actions.ScrubWithinSection | hooks/usePracticeActions.ts:92-113 | scrubbing onto a line of the current section lands on a line containing the time, no later than that line |
| Actions.LineWithId | hooks/usePracticeActions.ts:148-151 | the position found holds the id, and none is found only when no line has it |
| Actions.JumpToSaved | hooks/usePracticeActions.ts:138-157 | an unknown id, or a line outside every section, changes nothing; otherwise the learner is put in LISTENING, idle, with the saved list hidden |
| Actions.JumpLandsOnLine | hooks/usePracticeActions.ts:138-157 | a jump to a line of a section lands on that section with that line current |
| Actions.InputComplete | hooks/usePracticeActions.ts:172-174 | finishing an answer moves to FEEDBACK whether or not it was correct, and changes nothing else |
| Actions.ShortcutExport | hooks/usePracticeActions.ts:193-208 | the shortcut exports the current line exactly when there is one and the export status is idle |
| Answer.Enter | components/InputFeedback.tsx:37-40 | entering INPUT gives one empty box per word token; other modes keep the boxes |
| Answer.SetInput | components/InputFeedback.tsx:49-52 | only the changed box takes the new value; the others keep theirs |
| Answer.InputChange | components/InputFeedback.tsx:49-79 | a change auto-completes iff it is in the last box, that word matches, and all words are correct |
| Answer.ExactTypingCompletes | components/InputFeedback.tsx:55-79 | typing every word exactly completes the line at the last box |
| Answer.Paste | components/InputFeedback.tsx:119-132 | the pasted words overwrite the first min(#words, #boxes) boxes and the rest are unchanged |
| Answer.PastedWords | components/InputFeedback.tsx:122 | single-spaced words paste back as exactly those words; a blank clipboard gives one empty word |
| Answer.Submit | components/InputFeedback.tsx:139-147 | submit acts only in INPUT with a non-blank answer, and reports correct iff the trimmed, lower-cased answer equals the trimmed, lower-cased target |
| Answer.DisabledSubmitsNothing | components/InputFeedback.tsx:373 | with every box empty, submitting does nothing |
| Answer.SubmitTargetCorrect | components/InputFeedback.tsx:139-147 | the line itself, typed in one box, is a correct answer |
| Answer.Diff | components/InputFeedback.tsx:204-231 | character i is right iff the target has a character at i equal to it after lower-casing |
| Answer.DiffAllRight | components/InputFeedback.tsx:204-231 | the diff is all right iff the answer is, ignoring case, a prefix of the target |
| Blur.Fresh | components/BlurSubtitle.tsx:26-33 | a new line starts with nothing revealed, nothing selected and no definition |
| Blur.TextChange | components/BlurSubtitle.tsx:36-43 | a change of text resets everything: nothing revealed, no selected index or word, no definition, not loading; the same text keeps the state |
| Blur.NewLineStartsOver | components/BlurSubtitle.tsx:36-71 | after a change of text, a click on a word reveals only that word and selects it, with no definition shown or loading |
| Blur.Clean | components/BlurSubtitle.tsx:61 | the cleaned word contains none of the stripped punctuation and only characters of the word; a word without them is unchanged |
| Blur.CleanIdempotent | components/BlurSubtitle.tsx:61 | cleaning twice is cleaning once |
| Blur.Click | components/BlurSubtitle.tsx:60-98 | a word that cleans to nothing changes nothing; otherwise the index is revealed, only it is added, and clicking the selected word with its definition shown changes nothing |
| Blur.DefinitionArrives | components/BlurSubtitle.tsx:86-96 | when the lookup finishes, loading ends and the definition is shown iff it was found; reveal state and selection are unchanged |
| Blur.ArrivedDefinitionStays | components/BlurSubtitle.tsx:74-96 | after the definition of a clicked word arrives, clicking it again changes nothing; after a failed lookup a click loads again |
| Blur.WordClickReveals | components/BlurSubtitle.tsx:60-71 | clicking a WORD token always reveals exactly its index |
| Blur.ClicksOnlyGrow | components/BlurSubtitle.tsx:65-71 | between resets the revealed set only grows, and only by clicked indices |
| Blur.Render | components/BlurSubtitle.tsx:115-150 | each token renders by its word position's reveal state |
| Blur.CellsKeepLength | components/BlurSubtitle.tsx:120-150 | spaces render nothing; punctuation and revealed words render verbatim; a hidden word renders one '_' per character |
| Blur.SidebarWidth | components/BlurSubtitle.tsx:203-205 | the width is at least 200 and at most half the window when the window is at least 400 wide; it is exactly the distance to the right edge inside those bounds, exactly half the window when that distance exceeds half (and half is at least 200), and exactly 200 when the distance or half the window is below 200 |
| Storage.JsMod60 | utils/storage.ts:11 | JavaScript's `%` by 60: the remainder has the sign of the dividend and magnitude below 60 |
| Storage.FormatTimeCode | utils/storage.ts:8-13 | position 0 gives "00:00" |
| Storage.TimeCodeReadsBack | utils/storage.ts:8-13 | the time code is two digit fields "MM:SS", at least two digits each, with seconds below 60, reading back as the whole seconds |
| Storage.MinutesSeconds | utils/storage.ts:10-12 | the minute and second fields make up the position's whole seconds |
| Storage.SaveLine | utils/storage.ts:25-43 | a text already stored leaves the list unchanged; otherwise the new line is put first with that text; texts stay distinct |
| Storage.RemoveLine | utils/storage.ts:45-50 | every line with the text goes, the others stay in order |
| Storage.RemoveLineAppend | utils/storage.ts:47 | removal works line by line, so it distributes over concatenation |
| Storage.SaveThenRemove | utils/storage.ts:25-50 | saving a new text and then removing it restores the list |
| Storage.SaveIdempotent | utils/storage.ts:28-30 | saving the same text twice stores it once |
| Storage.Clear | utils/storage.ts:52-55 | clearing leaves no saved line |
| Storage.GetPracticeConfig | utils/storage.ts:59-67 | without a stored value the section length is 0 (whole video) |
| Storage.GetAudioPadding | utils/storage.ts:75-83 | without a stored value the padding is 100 ms before and 200 ms after |
| SavedLines.SavedItems | hooks/useSavedLines.ts:35-37 | the saved items are the video's lines with a saved id, in order |
| SavedLines.SavedItemsAppend | hooks/useSavedLines.ts:35-37 | the filter distributes over concatenation, so order is kept |
| SavedLines.IsCurrentSaved | hooks/useSavedLines.ts:40-42 | no line is not saved; otherwise saved iff its id is marked |
| SavedLines.LoadSavedIds | hooks/useSavedLines.ts:45-56 | an id is marked iff its line's text is in the store |
| SavedLines.VideoLabel | hooks/useSavedLines.ts:75 | the stored video name is the file's name, or "Unknown Video" without one |
| SavedLines.Toggle | hooks/useSavedLines.ts:59-77 | a marked line is unmarked and its text removed; an unmarked one is marked and stored |
| SavedLines.ToggleTwice | hooks/useSavedLines.ts:59-77 | toggling twice restores the marks, and the store too when the line was not stored before |
| SavedLines.ToggleAgreesWithReload | hooks/useSavedLines.ts:45-77 | after a toggle, reloading marks from the store agrees with the session about that line |
| SavedLines.DeleteSavedItem | hooks/useSavedLines.ts:80-92 | an unknown id changes nothing; otherwise exactly that id is unmarked and the text of the first line with that id is removed |
| Library.Search | components/SavedLibrary.tsx:19-22 | the result is the lines, in order, whose text or video name contains the term, ignoring case |
| Library.SearchAppend | components/SavedLibrary.tsx:19-22 | the filter distributes over concatenation, so order is kept |
| Library.EmptySearchKeepsAll | components/SavedLibrary.tsx:19-22 | an empty term keeps every line |
| Library.NamelessMatchesOnText | components/SavedLibrary.tsx:21 | a line without a video name matches only on its text |
| Library.DeletedNotFoundByText | components/SavedLibrary.tsx:14-22 | after a delete no search finds a line with that text |
| VideoStorage.CreateVideoRecord | utils/videoStorage.ts:19-59 | a new record has both indices 0, completion 0, practice time 0, both dates now, and is stored under its id |
| VideoStorage.CompletionRate | utils/videoStorage.ts:130 | the rate is index·100/total rounded half up |
| VideoStorage.CompletionRateRange | utils/videoStorage.ts:129-131 | for index within 0..total the rate is within 0..100, 0 at the start and 100 at the end |
| VideoStorage.CompletionRateMonotone | utils/videoStorage.ts:130 | a later line never shows a lower rate |
| VideoStorage.UpdateProgress | utils/videoStorage.ts:114-137 | a missing record is a no-op; otherwise both indices and the date are set, the rate only when the total is positive, and nothing else changes |
| VideoStorage.ProgressKeepsRateInRange | utils/videoStorage.ts:129-131 | the stored rate stays within 0..100 |
| VideoStorage.UpdatePracticeTime | utils/videoStorage.ts:176-186 | exactly the given seconds are added to the record, if it exists |
| VideoStorage.PracticeTimeAdds | utils/videoStorage.ts:181 | two updates add up to one |
| VideoStorage.FormatPracticeTime | utils/videoStorage.ts:191-195 | under a minute "Ns"; under an hour "Nm"; otherwise hours and minutes |
| VideoStorage.PracticeTimeReadsBack | utils/videoStorage.ts:191-195 | "Nm" and "Hh Mm" (M < 60) read back as the time rounded down to the minute |
| VideoStorage.MinutesReadBack | utils/videoStorage.ts:193 | between a minute and an hour the text is a digit string and "m", whose value is the whole minutes |
| VideoStorage.HoursReadBack | utils/videoStorage.ts:194 | from an hour on the text is two space-separated parts, digits and "h", digits and "m", the minutes below 60 and hours and minutes together the time rounded down to the minute |
| VideoStorage.FormatLastPracticed | utils/videoStorage.ts:200-215 | under a minute is "just now", then minutes, hours, "yesterday" for exactly one day, days up to six, then the date; each count is the floor of the elapsed time |
| VideoStorage.LastPracticedMonotone | utils/videoStorage.ts:200-213 | an older timestamp never shows as more recent |
| VideoStorage.SortByRecent | utils/videoStorage.ts:68 | the records are a permutation of the input, most recently practised first |
| VideoStorage.Insert | utils/videoStorage.ts:68 | inserting into a sorted list keeps it sorted and adds exactly that record |
| VideoStorage.InsertStable | utils/videoStorage.ts:68 | the inserted record goes after every record practised at the same time |
| VideoStorage.SortByRecentStable | utils/videoStorage.ts:68 | the sort is stable, as JavaScript's `sort` is: records practised at the same time keep their input order |
| VideoStorage.RecentFirstCons | utils/videoStorage.ts:68 | a record no older than the head of a sorted list may go in front of it |
| VideoStorage.GetAllVideoRecords | utils/videoStorage.ts:64-73 | the stored records, most recent first; a failed read gives none |
| Shortcuts.MatchesShortcut | hooks/useKeyboardShortcuts.ts:42-80 | a match respects every set field, the repeat rule, ctrl-or-meta and the condition |
| Shortcuts.ConstraintsSuffice | hooks/useKeyboardShortcuts.ts:42-80 | an event meeting every constraint matches: together with the contract above, an iff |
| Shortcuts.UnconstrainedMatchesAll | hooks/useKeyboardShortcuts.ts:47-69 | unset fields impose nothing |
| Shortcuts.Dispatch | hooks/useKeyboardShortcuts.ts:99-123 | when enabled, the first eligible shortcut in list order runs, preventDefault only if it asks; nothing runs iff disabled or none is eligible |
| Shortcuts.LaterShortcutsIgnored | hooks/useKeyboardShortcuts.ts:100-123 | shortcuts after the first match never run |
| Shortcuts.EditableSkipped | hooks/useKeyboardShortcuts.ts:105-111 | in an editable element a shortcut kept out of editable elements never runs |
| Upload.KindIgnoresCase | components/UploadSection.tsx:86-93 | the lower-cased extension decides: ".MP4" is a video, ".SRT" a subtitle, ".png" neither |
| Upload.LastPositions | components/UploadSection.tsx:86-93 | one pass finds the last video and the last subtitle position |
| Upload.Detect | components/UploadSection.tsx:81-93 | within one selection the last file of each kind wins |
| Upload.SelectMultiple | components/UploadSection.tsx:81-105 | a detected kind replaces the stored file; the pair is marked detected only when both kinds were in the selection |
| Upload.SelectVideo | components/UploadSection.tsx:76-79 | handleVideoFileSelect, which no zone reaches: it would replace the video and clear the detected mark |
| Upload.ChooseVideoFiles | components/UploadSection.tsx:26-41 | the video zone allows several files, so every non-empty drop or pick, a single file included, goes through the multiple-selection handler; an empty one changes nothing |
| Upload.ChooseSubtitleFile | components/UploadSection.tsx:26-41 | the subtitle zone takes the first file whatever its extension, and keeps the video and the detected mark |
| Upload.SinglePick | components/UploadSection.tsx:81-105 | one file in the video zone: a video or a subtitle replaces the stored file of its kind, anything else is ignored, and the detected mark is never touched |
| Upload.MovIgnored | components/UploadSection.tsx:86-93 | a single ".mov" file is neither kind, so choosing it changes nothing |
| Upload.PickedVideoKeepsMark | components/UploadSection.tsx:76-105 | one video picked after a detected pair keeps the detected mark, which handleVideoFileSelect would have cleared |
| Upload.Start | components/UploadSection.tsx:107-111 | practice starts, with both files, exactly when both are set |
| Upload.PairSelectionStarts | components/UploadSection.tsx:81-111 | after a selection holding both kinds, practice can start and the pair is marked detected |
| SettingsAnki.Restrict | components/SettingsAnki.tsx:69-75 | a field is kept iff the note type has it and its previous key was non-empty, with that key |
| SettingsAnki.RestrictIdempotent | components/SettingsAnki.tsx:69-75 | pruning twice prunes nothing more |
| SettingsAnki.RestrictIgnoresOrder | components/SettingsAnki.tsx:69-75 | the order of the fetched fields does not matter |
| SettingsAnki.Update | components/SettingsAnki.tsx:97-102 | exactly one field is assigned and every other entry stays |
| SettingsAnki.UpdateSurvivesRefetch | components/SettingsAnki.tsx:97-102 | an assigned non-empty key survives a refetch of the same note type; a cleared one is dropped |
| SettingsAnki.ModelChanged | components/SettingsAnki.tsx:64-78 | fields are fetched only for a named note type over a working connection; the new mapping is a sub-map of the old restricted to the fetched fields |
| SettingsAnki.FailedFetchClearsMapping | hooks/useAnkiConnection.ts:50-58 | a failed fetch counts as no fields, which empties the mapping |
| SettingsAnki.ModelChangedIdempotent | components/SettingsAnki.tsx:64-95 | reacting twice to the same fetch changes nothing more |
| AnkiNote.TextValue | utils/anki.ts:73-78 | 'sentence' and 'context' take the sentence; 'videoName' and 'timestamp' are copied; 'word' and 'definition' default to ""; no other key gives text |
| AnkiNote.StripImagePrefix | utils/anki.ts:81 | the result is a suffix of the input, with at most one of the png/jpg/jpeg base64 headers removed |
| AnkiNote.StripsHeader | utils/anki.ts:81 | each of the three headers is removed, leaving the payload |
| AnkiNote.CollectFields | utils/anki.ts:70-78 | a field is filled iff some entry with a text key maps to it, and holds that key's text |
| AnkiNote.CollectMediaFiles | utils/anki.ts:79-92 | every media file comes from a mapping entry with its key and given data, in mapping order |
| AnkiNote.CollectMediaCovers | utils/anki.ts:79-92 | with the data given, every entry with the media key yields a file |
| AnkiNote.AddNote | utils/anki.ts:53-108 | deck and model come from the template; duplicates are allowed within the deck; a media list is present only when non-empty |
| AnkiNote.NoteFields | utils/anki.ts:65-93 | each mapping entry fills its field iff its key is a text key, with that key's text; no field outside the mapping appears |
| AnkiNote.NoteMedia | utils/anki.ts:79-105 | a picture is attached iff a screenshot is given and some field is mapped to it; the same for audio |
| Capture.PaddedWindow | hooks/useAnkiIntegration.ts:43-57 | the window is the line widened by the padding; one starting before 0 or ending after the duration is an error, never clamped |
| Capture.LessPaddingFits | hooks/useAnkiIntegration.ts:43-57 | reducing the padding keeps a window that fitted inside the video, and inside the old window |
| Capture.StopDelay | hooks/useAnkiIntegration.ts:102-110 | counted from the window's start, the stop timer fires strictly after the window's end and at most 50 ms past it |
| Capture.StopCoversWindow | hooks/useAnkiIntegration.ts:95-110 | whenever a capture hands back a clip, the recording (from the window's start until the stop timer) holds the whole padded window and ends after it; with paddings that are not negative it holds the whole line |
| Capture.DataUrlPayload | hooks/useAnkiIntegration.ts:84 | with a comma, the part after the first comma (comma-free and shorter); without, the whole result |
| Capture.DataUrlPayloadOf | hooks/useAnkiIntegration.ts:84 | a data URL "header,payload" gives back its payload |
| Capture.CaptureAudioClipAsWritten | hooks/useAnkiIntegration.ts:38-112 | no video gives nothing; a bad window is an error; after a capture the video is paused whatever it was doing before |
| Capture.CaptureStopsPlayback | hooks/useAnkiIntegration.ts:86-110 | a video playing before the capture is paused after it, although its position is restored |
| Capture.CaptureAudioClip | hooks/useAnkiIntegration.ts:38-112 | the same outcomes, with a clip only from a recording over a valid window, as the payload of its data URL |
| Capture.CaptureRestoresMedia | hooks/useAnkiIntegration.ts:70-71 | the corrected capture leaves position and playing state as they were, with the same result |
| Capture.CaptureMediaAsWritten | hooks/useAnkiIntegration.ts:115-152 | no template captures nothing; the frame only when a field wants a screenshot; audio only when wanted, asked for and recorded, and kept exactly when a non-empty clip comes back; a recording over a valid window leaves the video paused, and pausing is the only change it makes to the element |
| Capture.CaptureMedia | hooks/useAnkiIntegration.ts:115-152 | the same captured media over the corrected capture, with the video element left as it was found |
| Capture.CaptureMediaPauses | hooks/useAnkiIntegration.ts:86-110 | a recording made while the video plays leaves it paused as written and playing when corrected, with the same media captured |
| Capture.SentenceTemplate | hooks/useAnkiIntegration.ts:163-164 | the audio card, falling back to the word card |
| Capture.WordTemplate | hooks/useAnkiIntegration.ts:205-210 | with audio the audio card first, without it the word card first |
| Capture.WordTemplateChoice | hooks/useAnkiIntegration.ts:205-215 | either choice finds a template iff one is configured, and with only one configured both use it |
| Capture.BeginExport | hooks/useAnkiIntegration.ts:155-173 | an export starts only with a configuration, an idle status and a template; the status is 'recording' iff the template needs audio, else 'adding' |
| Capture.AddToAnkiAsWritten | hooks/useAnkiIntegration.ts:155-193 | every export that starts ends in the error status, with no note, back to idle after 3 s; an audio template's recording over a valid window leaves the video paused |
| Capture.AddToAnki | hooks/useAnkiIntegration.ts:155-194 | every export that starts sends a note built from the chosen template, ends in success iff AnkiConnect accepts, and is idle again after 2 s or 3 s |
| Capture.ExportCarriesLine | hooks/useAnkiIntegration.ts:179-185 | the field mapped to 'sentence' carries the line's text |
| Capture.WordToAnki | hooks/useAnkiIntegration.ts:197-228 | a word note is built iff a configuration and a template exist; without audio wanted it carries no audio |
| Capture.WordToAnkiAsWritten | hooks/useAnkiIntegration.ts:197-228 | no note is ever sent; the handler rejects exactly when a configuration and a template exist; without a rejection the video element is untouched, and at most it ends up paused |
| Capture.WordExportLost | hooks/useAnkiIntegration.ts:217-227 | the corrected word export sends a note exactly when the export as written rejects, and the one as written never sends |
| Capture.WordNoteFields | hooks/useAnkiIntegration.ts:219-227 | the word note's text fields carry the word, the definition and the sentence per the mapping |
| Layout.PanelFor | components/PracticeLayout.tsx:204-220 | no current line shows the end of the content; LISTENING shows the prompt; INPUT and FEEDBACK show the answer boxes for the current line |
| Layout.OnComplete | components/PracticeLayout.tsx:213 | a correct answer continues; a wrong one goes to FEEDBACK |
| Layout.CorrectSkipsFeedback | components/PracticeLayout.tsx:213 | before the last line, a correct answer moves on in LISTENING without feedback, and a wrong one stays in FEEDBACK |
| Layout.SelectorFor | components/PracticeLayout.tsx:103-122 | the selector shows only with more than one section; previous is disabled at 0 and next at the last section |
| Layout.SelectorStaysInRange | components/PracticeLayout.tsx:103-122 | an enabled button requests a section that exists and gets it |
| Layout.OverlayPressHides | components/PracticeLayout.tsx:189 | pressing the play overlay starts playback, which hides it |
| Layout.AddButton | components/PracticeLayout.tsx:283-296 | the button is absent without a configuration and enabled only when idle |
| Layout.EnabledButtonExports | components/PracticeLayout.tsx:283-296 | the enabled button starts an export iff a card template is configured |
| Layout.PaddingChange | components/PracticeLayout.tsx:88-92 | only the named padding field changes |
| Layout.PaddingMovesOneEnd | components/PracticeLayout.tsx:88-92 | a padding change moves only its own end of the capture window |
| Layout.PaddingChangeBack | components/PracticeLayout.tsx:88-92 | setting a field back to its old value restores the padding |

## Left out

- Browser media and timers are reduced to parameters:
  - the recorder's outcome is `Capture.Recorder`: no audio track, refused playback, or a data URL;
  - the canvas frame is an optional string;
  - the polling loop, `setTimeout` and the file reader are not modelled.
  - Only the window arithmetic, the stop delay and the restore remain.
- Persistence and network are left out: localStorage, IndexedDB, file handles, AnkiConnect's HTTP calls (`invokeAnki`, the connection hook) and the AI definition lookup.
  - Stored values are inputs, stores are sequences or maps, and AnkiConnect's answer is a boolean.
  - `Date.now()` and `crypto.randomUUID()` are parameters (`now`, `newId`).
- Player.WithProgress, Player.ScrubTime: progress, the scrub fraction and `Media.currentTime`/`duration` use exact reals, not IEEE doubles. NaN durations (unloaded metadata) are not modelled.
- VideoStorage.CompletionRate: exact integer rounding; for the reals involved it agrees with `Math.round` except where a double's error would cross a half.
- Srt.NumberValue: `Number(...)` is modelled for blank fields and plain decimal digits. Signs, decimals, exponents and hex forms read as NaN here, though JavaScript accepts them.
- Storage.FormatTimeCode: NaN inputs are not modelled; negative positions follow JavaScript's floor and remainder.
- VideoStorage.FormatLastPracticed: the date after a week is kept as the timestamp; locale formatting is not modelled.
- Chars.Lower and the letter and number classes are per-character approximations of Unicode:
  - upper case covers ASCII and Latin-1;
  - letters cover the Latin, Greek, Cyrillic and CJK blocks;
  - numbers (`Chars.IsNumber`) cover the ASCII digits, Arabic-Indic and Devanagari digits, superscripts, subscripts, fractions, Roman and circled numerals and full-width digits, not the whole `\p{N}` table;
  - whole-string case mappings that change length are out of scope.
- Sections come as an input. App.tsx calls an `initializePractice` that is not defined in the session hook, so no segmenter is invented.
- The learning and blur-playback modes passed by the video controller are ignored by the player, so the continuous reveal playback is not modelled.
- Capture.AddToAnki, Capture.WordToAnki: they model `addNote` called as it is declared, `(config, data)` over a template record. The calls as written (Capture.AddToAnkiAsWritten, Capture.WordToAnkiAsWritten) are under Findings.
- The duplicate handlers in App.tsx and components/Settings.tsx, and the purely presentational components, are not modelled.
- React's asynchronous render and batching order is not modelled: each handler's state updates apply in sequence.
- Practice.SwitchSection: it clears the UI's playing flag but, like the source, leaves the element's own `playing` as it was; later polls see the flag, not the element.
- Player.LineChangeSeek: it assumes `play()` succeeds; the rejected promise that is only logged (hooks/useVideoPlayer.ts:106) is not modelled, so the UI flag may claim playback the element refused.
- Blur.DefinitionArrives: the lookup's answer is applied to whatever state is current when it arrives; its content, and an answer that is stale because the line or the selection changed meanwhile, are not modelled.
- Lengths are counted in code points, one per `char`. JavaScript's `.length` and `'_'.repeat(token.value.length)` (utils/textTokenizer.ts:87, components/BlurSubtitle.tsx:140) count UTF-16 units, so a character outside the Basic Multilingual Plane counts twice there and once here.

## Findings

| source | as written | input that shows it | evidently intended | confidence | as-written member | corrected member |
|---|---|---|---|---|---|---|
| hooks/useAnkiIntegration.ts:86-88 | the stop timer pauses the video (line 108); the restore then puts back the position and pauses a video that was paused, but never resumes one that was playing | any capture started while the video plays, with a valid window and an audio track | the video returns to its earlier position and playing state | not executed | Capture.CaptureAudioClipAsWritten (shown by Capture.CaptureStopsPlayback) | Capture.CaptureAudioClip (proved by Capture.CaptureRestoresMedia) |
| hooks/useAnkiIntegration.ts:179-185 | `Anki.addNote(ankiConfig.url, template, data)` against `addNote(config, data)` in utils/anki.ts:53: the template is read as the data and the URL string as the configuration, so `Object.entries` of the URL's missing `fieldMapping` throws | any sentence export with a configured template, while idle | the note is built from the template and the line, and the status reflects AnkiConnect's answer | not executed | Capture.AddToAnkiAsWritten | Capture.AddToAnki (with Capture.ExportCarriesLine) |
| hooks/useAnkiIntegration.ts:219-227 | the word export makes the same `Anki.addNote(ankiConfig.url, template, data)` call, with no handler around it: the throw rejects the whole export, no note is sent, and the word panel's own handler (components/BlurSubtitle.tsx:99-112) shows the error | any word export with a configured template | a note carrying the word, its definition and the line | not executed | Capture.WordToAnkiAsWritten (shown by Capture.WordExportLost) | Capture.WordToAnki (with Capture.WordNoteFields) |
