# WhatsApp chat-export parser, modelled in Dafny

This project models the core of a web app that reads a WhatsApp chat export
(a `.txt` file) and shows it as a chat screen. The core is the parser
(`src/utils/parseChat.js`) and the list logic built on its result:

- `src/utils/formatters.js`: the date-string parser and time formatter.
- `src/components/DatePickerSheet.jsx`: the month grouping of the date picker.
- `src/components/ChatScreen.jsx`: the unique dates, the rendered item list with day separators, the sender colour cache, the group-chat test and the message count.

The parser works in three stages:

1. It splits the text into lines.
2. It recognises the first line of each entry with `MESSAGE_START_REGEX`. It opens a record for that line, a user message or a system message. Every following line that does not match is appended to the open record's message.
3. It counts the senders, picks the owner, marks the owner's messages, renumbers the records and names the chat.

## Modules

Each module has one Dafny file:

| module | contents |
|---|---|
| `Wrappers` | `Option` |
| `JsText` | The JavaScript primitives used: `\s`, `trim`, `split` and `join`, `Number` on digit strings, number to string, `padStart`, the code-unit string order, and a sort on strings. |
| `Lists` | `Distinct`, first-occurrence de-duplication, occurrence counts. |
| `StartLine` | `MESSAGE_START_REGEX` as a hand-written matcher. Each function matches one stretch of the pattern and returns where it ends. |
| `Classify` | `SENDER_MSG_REGEX`, `SYSTEM_PATTERNS` and `isSystemMessage`. |
| `ParseChat` | The records, with a declarative reference `Records` for the line loop. It also holds the owner choice, the chat name, and the `ParseChat` method built from one loop method per loop of the source. |
| `Formatters` | `parseDateStr` up to the (month, day, year) triple, and `formatTime`. |
| `DatePicker` | `parseMonthYear`, `getMonthKey`, `getMonthLabel`, the grouping `reduce` and the sorted month list. |
| `ChatScreen` | `uniqueDates`, `renderedItems`, `getSenderColor` (the `ColorCache` class), `isGroupChat` and the message count. |

## Where the model follows the code

- **The bracketed example does not start an entry.** The comment at `src/utils/parseChat.js:14` lists `[1/5/25, 10:30:00 AM] John: Hello` as handled. The pattern on line 17 still requires a dash after the optional `]`. Such a line is therefore a continuation line, or it is dropped before the first entry. The model follows the pattern: `StartLine.BracketLayoutIsNotStart` proves that this layout never starts an entry.
- **The separator after the date.** The separator after the date is an optional `,` followed by exactly one whitespace character (`,?\s` on line 17), and the model does the same.
- **The meridiem.** The meridiem is only `AM`, `PM`, `am` or `pm`: the pattern on line 17 has no `i` flag, so `Am` or `pM` are not meridiems. The model accepts the same four spellings.
- **Ids.** Every provisional `id: messages.length` already equals the record's final index. The renumbering loop therefore changes nothing, which `ParseChat.RenumberRecords` proves. It is still modelled, as `ParseChat.AssignIds`.

## Model

| member | source | states |
|---|---|---|
| JsText.Trim | src/utils/parseChat.js:80-103 | `trim()` returns a slice `s[i..j]` of its input, with only whitespace before `i` and after `j`. The result is empty exactly when the input is all whitespace, and otherwise it neither starts nor ends with whitespace |
| JsText.Split | src/utils/parseChat.js:59 | `split` gives one part more than there are separators, and no part holds a separator |
| JsText.JoinSplit | src/utils/parseChat.js:59 | joining the lines of `rawText.split("\n")` with `\n` gives back the text, so no character is lost or invented |
| JsText.SplitJoin | src/utils/parseChat.js:59 | splitting the join of newline-free lines gives back those lines |
| JsText.ToNumber | src/utils/formatters.js:27 | `Number` gives an integer exactly for digit strings, and that integer is the decimal value of the digits |
| JsText.DecimalString | src/components/DatePickerSheet.jsx:51 | a number as a string is a non-empty digit string whose value is the number, with no leading zero |
| JsText.PadStart | src/components/DatePickerSheet.jsx:51 | `padStart` keeps the string as its suffix, fills the front with the fill character, and reaches the width |
| JsText.BelowTotal | src/components/DatePickerSheet.jsx:71 | the default string order of `sort` is total and antisymmetric (with `BelowIrreflexive` and `BelowTransitive`, a strict order) |
| JsText.SortStrings | src/components/DatePickerSheet.jsx:71 | `sort()` returns a sorted permutation of its input |
| JsText.AsciiUpperString | src/utils/parseChat.js:73 | `toUpperCase` keeps the length, leaves no lowercase ASCII letter, changes no other character, and turns the meridiems `am`/`AM` into `AM` and `pm`/`PM` into `PM` |
| Lists.Dedup | src/components/ChatScreen.jsx:52-62 | first-occurrence de-duplication has the same members as its input, holds no repeats, and is no longer than its input |
| Lists.DedupPrefix | src/components/ChatScreen.jsx:55-60 | de-duplication keeps first-appearance order: de-duplicating a prefix of the input gives a prefix of the result |
| Lists.Tally | src/utils/parseChat.js:123-128 | the count map's keys are exactly the counted names, and each name's entry is its number of occurrences, at least one |
| Lists.TallySnoc | src/utils/parseChat.js:126 | one more name adds one to its count, starting from 0 when absent |
| StartLine.DigitRun | src/utils/parseChat.js:17 | a `\d` run ends at the end of the line or at a non-digit |
| StartLine.UpToTerminator | src/utils/parseChat.js:17 | the `(.*)` capture is the longest prefix without a line terminator |
| StartLine.Locate | src/utils/parseChat.js:16-17 | a match's date, time, meridiem and body lie in order inside the line |
| StartLine.MatchStart | src/utils/parseChat.js:16-17 | a meridiem capture is one of `AM`, `PM`, `am`, `pm`, and the body capture holds no line terminator |
| StartLine.LaidMatches | src/utils/parseChat.js:16-17 | every line laid out as the pattern describes matches, with the captures its layout gives: an optional `[`; the date (1-2, 1-2 and 2-4 digits with `/`, `-` or `.`); an optional `,` and one whitespace character; the time (1-2 digits, `:` or `.`, 2 digits, optional seconds); an optional whitespace character, optional meridiem, optional `]` and optional whitespace character; a hyphen, en dash or em dash; an optional whitespace character; and the body up to the first line terminator |
| StartLine.StartIsLaid | src/utils/parseChat.js:16-17 | every line that matches has such a layout, and its captures are the ones that layout gives |
| StartLine.StartIff | src/utils/parseChat.js:16-17 | a line matches the pattern exactly when it has such a layout |
| StartLine.BracketLayoutIsNotStart | src/utils/parseChat.js:14-17 | a line laid out as `[date, time[ meridiem]]` followed by anything but a dash (after at most one whitespace character) does not match the pattern, whatever the date, time and meridiem |
| StartLine.StartOpensWithDigit | src/utils/parseChat.js:17 | a start line opens with a digit, or with `[` and a digit |
| Classify.ColonIndex | src/utils/parseChat.js:20 | finds the first `:` of the body, or reports that there is none |
| Classify.SenderSplit | src/utils/parseChat.js:20 | `SENDER_MSG_REGEX` matches exactly when the body's first `:` comes after at least one character and is followed by whitespace. The sender is the part before that colon, and the message is everything after the colon and that whitespace character |
| Classify.SearchFrom | src/utils/parseChat.js:23-40 | an unanchored pattern test succeeds exactly when the pattern matches at some position |
| Classify.AnyMatches | src/utils/parseChat.js:49 | `SYSTEM_PATTERNS.some` holds exactly when some pattern tests true |
| Classify.SystemIff | src/utils/parseChat.js:45-50 | a body is a system message exactly when it has no `sender: ` shape or some system pattern matches in it |
| Classify.AddedIsSystem | src/utils/parseChat.js:29 | any body containing `added` and then whitespace is a system message, even one with a sender |
| Classify.LeftAtEndIsSystem | src/utils/parseChat.js:31 | any body ending in `left` is a system message |
| Classify.NoColonSpaceIsSystem | src/utils/parseChat.js:46-47 | a body with no `:` followed by whitespace is a system message |
| ParseChat.Open | src/utils/parseChat.js:72-109 | an opened record has the given id and the captured date, and is not marked as the owner's. It is a system record exactly when `isSystemMessage` holds, and exactly when it has no sender |
| ParseChat.OpenShape | src/utils/parseChat.js:72-109 | an opened record carries the captured date and the displayed time. It is a system record (no sender, trimmed body) exactly when the body is a system message. Otherwise the sender and message are the trimmed parts before the first colon and after the colon and its whitespace |
| ParseChat.FallbackUnreachable | src/utils/parseChat.js:97-108 | the fallback branch is dead: a body that is not a system message always has the sender shape |
| ParseChat.TimeDisplayMeridiem | src/utils/parseChat.js:73 | with a meridiem, the displayed time is the time followed by ` AM` when the meridiem starts with `a` or `A`, and by ` PM` otherwise |
| ParseChat.ReadLine | src/utils/parseChat.js:64-66 | a line opens a record exactly when it matches the start pattern; otherwise it is kept verbatim |
| ParseChat.Records | src/utils/parseChat.js:63-120 | there are never more records than lines |
| ParseChat.RecordsCount | src/utils/parseChat.js:63-120 | there is one record per start line |
| ParseChat.RecordsIds | src/utils/parseChat.js:77-100 | each record's provisional id `messages.length` is its index |
| ParseChat.LeadingLinesDropped | src/utils/parseChat.js:114 | lines before the first start line are dropped |
| ParseChat.RecordBlock | src/utils/parseChat.js:63-120 | a start line and the continuation lines after it form exactly one record, whose message is the first body plus each continuation line after a newline |
| ParseChat.RecordsSnoc | src/utils/parseChat.js:63-120 | the records of one more line are the old records with that line applied: a new record, a continuation of the last record, or nothing |
| ParseChat.Segment | src/utils/parseChat.js:59-120 | the line loop with its `currentMessage` and flushes builds exactly the reference records |
| ParseChat.CountSenders | src/utils/parseChat.js:123-130 | the counting loop builds the tally of the message senders, and the participants are the distinct senders in first-appearance order |
| ParseChat.MarkOwner | src/utils/parseChat.js:145-150 | the marking loop sets `isOwner` exactly on the owner's message records |
| ParseChat.AssignIds | src/utils/parseChat.js:152-155 | the renumbering loop sets each id to its index |
| ParseChat.ParseChat | src/utils/parseChat.js:58-172 | the imperative `parseChat` computes the reference `Parse` |
| ParseChat.SendersMembers | src/utils/parseChat.js:124-128 | a name is counted exactly when it is non-empty and some message record has it as sender |
| ParseChat.Reduce | src/utils/parseChat.js:139-142 | the `reduce` returns its seed or one of the participants, a counted name |
| ParseChat.ReduceGreatest | src/utils/parseChat.js:139-142 | the `reduce` returns the seed or a participant, and its count is the greatest |
| ParseChat.ReduceFirst | src/utils/parseChat.js:139-142 | `>=` keeps the incumbent on ties, so the `reduce` returns the first participant with the greatest count |
| ParseChat.Owner | src/utils/parseChat.js:134-143 | the owner is `You` or a participant, and there is an owner whenever there are participants |
| ParseChat.OwnerChoice | src/utils/parseChat.js:132-143 | the owner is `You` when `You` was counted; otherwise it is none when there are no participants, and otherwise the first participant with the most messages |
| ParseChat.OthersCount | src/utils/parseChat.js:158 | filtering out the owner drops exactly one participant when the owner is among them, and none otherwise |
| ParseChat.ChatName | src/utils/parseChat.js:157-164 | the chat name is a participant, the owner, `Chat`, or `Group (n participants)` for at least two participants |
| ParseChat.ChatNameCases | src/utils/parseChat.js:157-164 | the chat is named `Chat` with no participants, after the only participant, after the other one of two, and `Group (n participants)` from three |
| ParseChat.ReadLinesWellRead | src/utils/parseChat.js:75-108 | every opened record is not yet marked as the owner's, and is a system record exactly when it has no sender |
| ParseChat.Assemble | src/utils/parseChat.js:122-171 | after the first pass the records keep their number and are numbered `0..n-1`, the participants are distinct, and the owner is `You` or a participant |
| ParseChat.Parse | src/utils/parseChat.js:58-172 | the parsed chat has one message per line that matches the start pattern |
| ParseChat.ParseEmpty | src/utils/parseChat.js:58-172 | the empty export gives no messages, no participants, no owner, and the name `Chat` |
| ParseChat.ParseRecords | src/utils/parseChat.js:58-172 | the parsed chat has one message per start line and ids `0..n-1`. A message is a system message exactly when it has no sender. It is marked as the owner's exactly when it is a user message whose sender is the owner |
| ParseChat.RenumberRecords | src/utils/parseChat.js:152-155 | renumbering changes nothing, because the provisional ids are already the indices |
| ParseChat.AssembleParticipants | src/utils/parseChat.js:123-130 | the participants are distinct, and they are exactly the non-empty senders of the user messages |
| ParseChat.AssembleOwner | src/utils/parseChat.js:132-143 | the owner is `You` when present, and otherwise the first most frequent participant. It is absent exactly when there are no participants, and otherwise it is a participant |
| ParseChat.AssembleName | src/utils/parseChat.js:157-164 | the chat name of the whole parse follows the four cases of the name rule |
| Formatters.ExpandYearRange | src/utils/formatters.js:48-51 | a two-digit year becomes a year in 1950-2049 with the same last two digits, a later year is unchanged, `NaN` stays `NaN`, and expanding twice changes nothing more |
| Formatters.PartNumbers | src/utils/formatters.js:24-27 | there is one number per part of the date split, and each is `Number` of its part |
| Formatters.ParseDateStr | src/utils/formatters.js:23-51 | `parseDateStr` gives a result exactly when the split has three parts, and a numeric year is always at least 100 |
| Formatters.ParseDateStrDefined | src/utils/formatters.js:24-25 | `parseDateStr` gives a result exactly when the string holds exactly two date separators |
| Formatters.ParseDateStrOrder | src/utils/formatters.js:27-53 | a first part above 12 is the day; otherwise the first part is the month. Month and day are the first two parts in some order, and the year is the third part expanded |
| Formatters.FormatTime | src/utils/formatters.js:89-91 | `formatTime` passes the time string through unchanged |
| DatePicker.ParseMonthYear | src/components/DatePickerSheet.jsx:23-25 | there is no month and year exactly when the split does not give three parts |
| DatePicker.ParseMonthYearParts | src/components/DatePickerSheet.jsx:23-40 | the month is the second part when the first exceeds 12, and the first part otherwise; the year is the expanded third part, at least 100 |
| DatePicker.MonthYearAgrees | src/components/DatePickerSheet.jsx:23-40 | `parseMonthYear` agrees with `parseDateStr` on when it fails and on the month and year |
| DatePicker.GetMonthLabel | src/components/DatePickerSheet.jsx:42-46 | the label is empty exactly when the date string does not split into three parts |
| DatePicker.GetMonthKey | src/components/DatePickerSheet.jsx:48-52 | an unparseable date string is its own key, and a parsed one's key holds the dash between year and month |
| DatePicker.UnparsedKey | src/components/DatePickerSheet.jsx:42-52 | an unparseable date string is its own month key, with an empty label |
| DatePicker.KeyAndLabel | src/components/DatePickerSheet.jsx:42-52 | for a four-digit year, the key is `YYYY-MM` with a zero-padded month, and the label is the month's name, a space and the year |
| DatePicker.TwoDigits | src/components/DatePickerSheet.jsx:51 | `String(month).padStart(2, "0")` is the two digits of the month |
| DatePicker.MonthKeyOrder | src/components/DatePickerSheet.jsx:48-71 | for four-digit years, sorting the keys as strings orders them by year and then by month |
| DatePicker.DatesWithKeyFirst | src/components/DatePickerSheet.jsx:63-69 | a bucket's first date is the first date with that key |
| DatePicker.GroupingNewKey | src/components/DatePickerSheet.jsx:66-67 | a date with a new key adds a bucket holding it, labelled from it, and preserves the grouping invariant |
| DatePicker.GroupingKnownKey | src/components/DatePickerSheet.jsx:67 | a date with a known key is appended to its bucket and preserves the grouping invariant |
| DatePicker.Bucketize | src/components/DatePickerSheet.jsx:63-69 | the `reduce` loop yields one bucket per key, in first-appearance order. Each bucket holds exactly that key's dates, in order, and is labelled from its first date |
| DatePicker.GroupDates | src/components/DatePickerSheet.jsx:62-71 | `grouped` has exactly the month keys of the dates, with each key's dates in order and the label of its first date, and `months` is the sorted keys |
| DatePicker.MonthsSortedDistinct | src/components/DatePickerSheet.jsx:71 | the month list is sorted, has no repeats, and holds exactly the month keys of the dates |
| ChatScreen.DatesMembers | src/components/ChatScreen.jsx:55-56 | a date is listed exactly when it is non-empty and some message has it |
| ChatScreen.UniqueDates | src/components/ChatScreen.jsx:52-62 | the loop yields each non-empty date once, in first-appearance order, and nothing else |
| ChatScreen.RenderedItems | src/components/ChatScreen.jsx:67-84 | the loop with `lastDate` builds the reference item list |
| ChatScreen.Render | src/components/ChatScreen.jsx:67-84 | the list has one or two items per message: the message, and at most one separator before it |
| ChatScreen.EntriesRender | src/components/ChatScreen.jsx:67-84 | the message items of the rendered list are the messages, all of them and in order |
| ChatScreen.SeparatorFollowed | src/components/ChatScreen.jsx:72-80 | every separator is directly followed by a message carrying its date, and its id is `date-` plus that message's id |
| ChatScreen.RenderPlacement | src/components/ChatScreen.jsx:71-81 | each message is preceded by its day's separator when its date differs from the previous message's (or it is first), and by the previous message otherwise |
| ChatScreen.RenderStarts | src/components/ChatScreen.jsx:69-79 | a non-empty list starts with a separator, since `lastDate` starts as `null` |
| ChatScreen.PaletteDistinct | src/components/ChatScreen.jsx:12-23 | the palette has ten distinct colours |
| ChatScreen.ColorsRepeat | src/components/ChatScreen.jsx:28-34 | two senders share a colour exactly when their first appearances are a multiple of ten apart |
| ChatScreen.ColorAssignmentUnique | src/components/ChatScreen.jsx:28-34 | the colours are determined by the order of first appearance alone |
| ChatScreen.ColorAssignmentStep | src/components/ChatScreen.jsx:29-32 | a known sender keeps its colour, and a new sender gets the palette entry at the number of colours so far, modulo ten |
| ChatScreen.ColorCache.constructor | src/components/ChatScreen.jsx:44 | the colour map starts empty |
| ChatScreen.ColorCache.SenderColor | src/components/ChatScreen.jsx:28-34 | `getSenderColor` returns the sender's cached colour, adding the next palette entry first when the sender is new, and keeps the cache a colour assignment in first-call order |
| ChatScreen.GroupChatName | src/components/ChatScreen.jsx:64 | a chat with more than two participants is named `Group (n participants)` |
| ChatScreen.MessageCount | src/components/ChatScreen.jsx:155 | the badge never counts more than the records |
| ChatScreen.MessageCountIndices | src/components/ChatScreen.jsx:155 | the badge counts exactly the positions holding user messages |
| ChatScreen.MessageCountKinds | src/components/ChatScreen.jsx:155 | the count depends only on the kinds of the records |
| ChatScreen.ParticipantsAtMostMessages | src/components/ChatScreen.jsx:155 | there are never more participants than counted messages |

## Left out

- `Number` is modelled on digit strings only, where every other string gives `NaN`. The date parts reaching it are cut at `/`, `-` and `.`, so they may hold other characters; a non-digit part is taken as `NaN` even where JavaScript would read it as a number (such as `" 5"` or `"1e2"`). The empty string is not among them: it is `0`, as in JavaScript.
- The `Date` object built by `parseDateStr` is not modelled: the model stops at the integer triple. `formatDate` (the `Today`/`Yesterday` test against the clock, month names), `getFileSizeString` and the rest of `src/utils/formatters.js` are not part of this model.
- React rendering, hooks, refs, scrolling, timers, the date jumping and the other components are not part of this model. Of `ChatScreen.jsx`, only the list logic is modelled.
- Strings are sequences of Unicode scalar values, while JavaScript compares, pads and measures UTF-16 code units. For text outside the Basic Multilingual Plane the sort order and lengths can differ.
- `/i` case folding is modelled only for ASCII letters. For these all-ASCII patterns without the `u` flag this is exact, since JavaScript never folds a non-ASCII character onto an ASCII one there.
- Plain JavaScript objects used as maps are modelled as maps with keys in insertion order. `Object.keys` lists integer-like keys (such as a sender named `42`) first, in numeric order, and an object inherits keys such as `constructor`. Neither quirk is modelled, so participants are always in first-appearance order and the month keys, which are never integer-like, are unaffected.
- With no participants, the `reduce` returns `participants[0]`, which is `undefined`. The model writes this absent owner as `None`.
- `DatePicker.Bucketize`: the `reduce` creates a bucket with an empty list and pushes the date onto it. The model creates the bucket holding its first date in one step.
- `ChatScreen.ColorCache.SenderColor`: the source tests `!colorMap.current[sender]`, which is modelled as "not in the map". Every stored colour is a non-empty string, so the two agree. A `null` sender is not modelled, since only user messages, which always have a sender, are coloured.
- The mutation of `msg.isOwner` and `msg.id` in place, on objects shared with the `messages` array, is modelled as building new records.
