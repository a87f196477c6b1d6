# Image2PDF bot — a Dafny model

Image2PDF is a Telegram bot. Users send it photos, and it turns each user's
collected photos into one PDF. A free user may upload 7 images and generate
7 PDFs over the bot's lifetime. A premium user has no limits.

The set of premium users is read once at start-up from a ledger file. This
file holds one user id per line, and lines that do not parse are skipped.
The "get premium" button adds the user's id to a second text file, the
upgrade-prompt log, but only the first time that user presses it.

The program keeps its state in module-level dictionaries. Here that state is
one `Bot.Bot` object with these fields:

- the premium set, fixed at start-up;
- the per-user lists of pending image paths;
- the per-user usage counters;
- the contents of the upgrade-prompt log;
- a ghost set of the files on disk.

Each handler is a method on that object. Each method is specified by a pure
transition function on one user's record, defined in `Session`. The
properties the bot promises are proved about these functions:

- the free-tier quota is never exceeded;
- premium users are never refused;
- every `os.remove` finds its file;
- the log records each id only once.

Modules:

- `Text` models the parts of Python the bot relies on:
  - `str.strip()`;
  - line iteration over a text file;
  - `str(n)` and `int(s)` for integers.
- `Ledger` is the start-up load of the premium ledger.
- `SeenLog` is the upgrade-prompt log and its append-once update.
- `Session` holds a user's record, the free-tier quotas, and the pure
  transitions for upload, convert and clear. It also defines event traces
  and the invariant every reachable record satisfies.
- `Bot` holds `create_pdf` and the handlers as methods of the `Bot` class,
  together with the dispatch of a sequence of updates.

## Model

| member | source | states |
|---|---|---|
| Text.Strip | main.py:30 | the stripped text has no whitespace (Python's `isspace` set) at either end |
| Text.TrimStartSpec | main.py:30 | the leading trim keeps a suffix, drops only whitespace, and stops at the first non-whitespace character |
| Text.TrimEndSpec | main.py:30 | the trailing trim keeps a prefix, drops only whitespace, and stops at the last non-whitespace character |
| Text.StripPadded | main.py:30 | stripping any whitespace padding from around a word gives exactly the word |
| Text.StripNoPadding | main.py:88 | a word with no whitespace at its ends is left unchanged by `strip()` |
| Text.LineEnd | main.py:28 | the first line of a text ends at its first newline, inclusive, or at the end of the text |
| Text.LinesConcat | main.py:28 | the lines yielded by iterating a file, joined back together, are exactly the file's text |
| Text.LinesAreLines | main.py:28 | every yielded line is non-empty, and only its last character can be a newline; every line but the last ends in a newline, so a file's text is split exactly at its newlines |
| Text.LinesAppend | main.py:87-91 | the lines of a terminated text followed by more text are the lines of each part, in order |
| Text.LineEndAppend | main.py:87-91 | text appended after a terminated text does not change where its first line ends |
| Text.SingleLine | main.py:91 | a newline-free word followed by a newline is exactly one line |
| Text.LinesNoNewline | main.py:88 | a non-empty text with no newline is a single line |
| Text.LineEndOfWord | main.py:91 | the first line of a word followed by a newline is the whole text |
| Text.LineEndNoNewline | main.py:88 | the first line of a newline-free text is the whole text |
| Text.DigitChar | main.py:89 | the digit character for `d` is a digit whose value is `d` |
| Text.FormatNat | main.py:89 | `str(n)` of a non-negative number is a non-empty string of digits; it starts with `'0'` exactly when `n` is zero, and then it is `"0"` |
| Text.FormatInt | main.py:89 | `str(n)` is non-empty and made of digits, except for a leading minus sign exactly when `n` is negative; no digit after the sign is a leading zero, so there is no `"-0"`; `"0"` is the only form that starts with `'0'` |
| Text.FormatNatValue | main.py:89 | the digits `str(n)` writes read back as `n` |
| Text.ParseFormat | main.py:30 | `int(str(n)) == n` for every integer of at most 4300 digits, the range where CPython's `str` and `int` succeed |
| Text.FormatIntInjective | main.py:89 | different ids have different `str` forms |
| Text.StripFormat | main.py:88-89 | `str(n)` survives `strip()` unchanged |
| Ledger.LedgerMember | main.py:26-32 | an id is loaded if and only if some ledger line parses to it |
| Ledger.LedgerAppend | main.py:28-32 | loading two stretches of lines, one after the other, loads the union of their ids |
| Ledger.SkipMalformed | main.py:31-32 | a malformed line adds nothing and does not stop the lines after it from loading |
| Ledger.PaddedIdLoads | main.py:30 | a line holding `str(uid)` with any surrounding whitespace loads `uid`, for an id of at most 4300 digits |
| Ledger.LoadPremium | main.py:26-32 | the loop's set equals the ledger's ids; an id is in it if and only if the file exists and lists it; a missing file gives the empty set |
| SeenLog.StripAll | main.py:88 | the comprehension yields one stripped line per file line |
| SeenLog.ReadSeenIds | main.py:87-88 | the loop returns the stripped lines of the log, in order |
| SeenLog.FormatIntNoNewline | main.py:91 | the id text contains no newline |
| SeenLog.StripAllAppend | main.py:88 | stripping the lines of two parts gives the stripped lines of each part, in order |
| SeenLog.SeenAfterAppend | main.py:89-91 | appending `str(uid) + "\n"` to a terminated log adds exactly one stripped line, `str(uid)` |
| SeenLog.RecordedTerminated | main.py:85-91 | starting from a missing or terminated log, a press always leaves a terminated log |
| SeenLog.RecordedContains | main.py:85-91 | for a log that is missing or ends in a newline, after a press the user's id is among the log's stripped lines |
| SeenLog.RecordedKeepsEarlier | main.py:89-91 | for a log that is missing or ends in a newline, a press only appends: the earlier lines stay in place, and at most one line is added |
| SeenLog.RecordedIdempotent | main.py:89-91 | pressing again leaves the log exactly as the first press left it |
| SeenLog.SeenIdsOneWord | main.py:88 | a one-word log, with or without a final newline, has that word as its only stripped line |
| SeenLog.UnterminatedLogRepeats | main.py:89-91 | an example showing why the newline premise is needed: pressing with id 7 on the log `"42"` (no final newline) glues the id onto that line, giving `"427\n"`, and a second press appends it again |
| Session.PagesOf | main.py:36-38 | the document has one page per image |
| Session.FreshConsistent | main.py:46-47 | the record `setdefault` creates satisfies the record invariant |
| Session.UploadRejected | main.py:150-152 | an upload is refused if and only if the user is free and `images_used >= 7`; a refusal changes nothing |
| Session.UploadAccepted | main.py:154-160 | an accepted upload appends `"{uid}_{len}.jpg"` and counts it only for a free user; the PDF counter is unchanged |
| Session.ConvertRejected | main.py:117-124 | convert fails if and only if the list is empty, or the user is free with `pdfs_generated >= 7`; the empty-list check comes first; a refusal changes nothing |
| Session.ConvertAccepted | main.py:126-138 | a successful convert builds one page per pending image, empties the list, and counts the PDF only for a free user |
| Session.ClearSpec | main.py:78-82 | clear empties the list and leaves both counters unchanged |
| Session.PremiumNeverRejected | main.py:41-42 | a premium user's upload is always accepted, and their convert succeeds exactly when images are pending |
| Session.StepConsistent | main.py:66-160 | every event keeps the record invariant: paths `"{uid}_{i}.jpg"` in order, and counters within the limits |
| Session.RunConsistent | main.py:66-160 | every sequence of events keeps the record invariant |
| Session.QuotaNeverExceeded | main.py:16-17 | starting from a fresh record, a free user's counters never pass 7 and never count fewer images than are pending; a premium user's counters stay zero |
| Session.CountersNeverDecrease | main.py:138 | the usage counters are lifetime totals that no event lowers |
| Session.UnderscoreAfterId | main.py:155 | in `"{uid}_…"`, the first underscore comes right after the id text |
| Session.ImagePathInjective | main.py:155 | two upload paths are equal only for the same user and the same slot |
| Session.OutputNotImage | main.py:126 | the PDF's file name is never an upload's file name |
| Session.PendingDistinct | main.py:132-133 | the pending paths of a consistent record are pairwise distinct |
| Session.Uploads | main.py:145 | `n` uploads in a row, as a trace |
| Session.UploadsFill | main.py:154-160 | accepted uploads fill the list with `"{uid}_k.jpg"`, `"{uid}_{k+1}.jpg"`, … and count each one for a free user |
| Session.FreeTierScenario | main.py:150-152 | a free user's 8th upload is refused; the next convert gives a 7-page PDF; a convert after that finds no images |
| Session.PremiumScenario | main.py:159-160 | a premium user's 10 uploads are all accepted and give a 10-page PDF; the counters stay zero |
| Bot.CreatePdf | main.py:34-39 | the loop adds one page per image, in list order |
| Bot.RunSnoc | main.py:171-179 | handling one more event after a trace equals one more step |
| Bot.NotOthersFile | main.py:155 | no path of another user's list, or of another slot, is one of this user's pending images or this user's PDF |
| Bot.TrackedUpdate | main.py:66-160 | replacing one user's record with a consistent one keeps the whole-bot invariant, provided only that user's files are deleted |
| Bot.UploadKeepsTracked | main.py:145-160 | an accepted or refused upload keeps the whole-bot invariant |
| Bot.ConvertKeepsTracked | main.py:126-138 | a successful convert empties the list, counts the PDF only for a free user, and keeps the whole-bot invariant once the images and the document are removed |
| Bot.ConvertFilesReady | main.py:132-134 | before a convert, the user's images are distinct files that are all on disk, and none has the document's name |
| Bot.ClearKeepsTracked | main.py:78-82 | clear keeps the whole-bot invariant once the user's images are removed |
| Bot.Bot.constructor | main.py:20-32 | start-up: the premium set is the one the ledger yields; there are no users yet |
| Bot.Bot.IsPremium | main.py:41-42 | a user is premium if and only if the ledger file lists them |
| Bot.Bot.EnsureRecord | main.py:46-47 | the two `setdefault` calls create a fresh record only for an unseen user, and change nothing else |
| Bot.Bot.Start | main.py:44-47 | `/start` only ensures the record exists |
| Bot.Bot.HandleImage | main.py:145-160 | the outcome and the new record are exactly `AfterUpload`; other users are untouched; the disk gains the saved path |
| Bot.Bot.ConvertFromButton | main.py:109-138 | the outcome and the new record are exactly `AfterConvert`; a refusal changes nothing; a conversion removes every pending image and the PDF, and no `os.remove` misses |
| Bot.Bot.Flush | main.py:126-138 | the successful path: the outcome and the new record are exactly `AfterConvert`, and the images and the document are deleted |
| Bot.Bot.WriteAndRemove | main.py:127-134 | the document is written, then the images and the document are removed; the disk loses exactly those files, and no removal meets a missing file |
| Bot.Bot.RemoveAll | main.py:132-134 | removing distinct paths that are all on disk deletes exactly those files, and each one exists when removed |
| Bot.Bot.ClearImages | main.py:78-82 | the existing pending images are deleted, the list is emptied, and the counters are kept |
| Bot.Bot.ShowPremium | main.py:84-91 | the log becomes the append-once update of the old log, with a missing file created first |
| Bot.Bot.Press | main.py:66-91 | a button press makes exactly the user's `Step`, deletes exactly `Deleted`, and updates the log only for "get premium" |
| Bot.Bot.Handle | main.py:173-175 | one update changes only its sender's record, by one `Step`; the disk loses exactly the files the event deletes and gains the photo it saves; the log changes only on a "get premium" press, by the append-once update |
| Bot.Bot.HandleAll | main.py:171-179 | after a run of updates, each user's record is the `Run` of that user's own events, in order; the disk is the result of each update's deletions and saves, in order; the log is the result of the "get premium" presses' append-once updates, in order |
| Bot.LogAllTerminated | main.py:85-91 | starting from a missing or newline-terminated log, the log stays newline-terminated over any run of updates |
| Bot.LogAllContains | main.py:84-91 | starting from a missing or newline-terminated log, every user who pressed "get premium" during a run has their id among the log's stripped lines at the end, whatever came after the press |

## Left out

- Telegram I/O is not modelled: replies, message edits, keyboards, `query.answer()`, the QR photo with its payment caption, and `send_document`. A handler's reply is its returned outcome.
- Rendering the PDF with FPDF is not modelled. This covers page geometry and image decoding. A document is its list of pages, and writing it (`pdf.output`) only adds its path to the ghost disk.
- The contents of the image and PDF files are not modelled. The disk is a ghost set of paths. The photo download and the PDF write add paths, and `os.remove` deletes them. The two text files, the ledger and the upgrade-prompt log, are modelled by their contents.
- The model does not cover exceptions part-way through a handler, because it has no failure model for the network or the file system. Examples are a failed download, a failed `send_document` that leaves files behind, or an `os.remove` error. `error_handler` (main.py:164-165) only prints, so it is left out.
- Concurrent handlers are not modelled: updates are handled one at a time, which is how the application processes them by default. If handlers overlapped at their `await` points, two uploads from the same user could compute the same path.
- `BOT_TOKEN`, `LAST_REQUEST_TIME`, `UPI_ID`, `ADMIN_USERNAME` and `QR_IMAGE_PATH` are left out. They are configuration or are never used. The check for the QR image (main.py:92) happens on a "get premium" press and only decides whether the photo reply is sent. The start-up check `os.path.exists(PREMIUM_FILE)` (main.py:26) is modelled: a missing ledger is the `None` case of `Ledger.LedgerSet`.
- Bot.Bot.ConvertFromButton: the `isinstance(update_or_query, Update)` branch (main.py:110-112) is not modelled. The bot only calls this function from a button press, so only the callback-query path exists. The user id is passed in directly.
- The "send" button only edits the message. It is an `Action` that changes no state.
- Text.ParseInt: it accepts only an optional sign followed by ASCII digits. Python's `int()` also accepts underscores between digits (`"1_0"`) and non-ASCII decimal digits. Ledger lines of those kinds are treated as malformed. The digit limit is modelled: like CPython's `int()` under its default `sys.get_int_max_str_digits()` of 4300, text with more digits than `Text.MAX_STR_DIGITS` is the `ValueError` case, so the ledger skips such a line.
- Text.FormatInt: it is total. In CPython, `str(n)` raises `ValueError` once `n` has more than 4300 digits. The bot formats only Telegram user ids (main.py:89-91 and the f-string of main.py:155), and those are far smaller, so that failure is not modelled.
- Text.Lines: file text is taken after Python's universal-newline translation, so every line break is `'\n'`. The last line may have no newline, and it is still yielded. Raw `"\r\n"` and `"\r"` are not modelled.
- SeenLog.RecordedIdempotent: it is stated only for a log that is missing or ends in a newline. The bot only ever creates such logs (SeenLog.RecordedTerminated). SeenLog.UnterminatedLogRepeats shows what happens to a log created by something else.
- Bot.Bot.ClearImages: it requires the user's record to exist. The clear branch always runs after the `setdefault` calls of main.py:71-72, and Bot.Bot.Press makes those calls first.
- Ledger.LoadPremium: the ledger is taken as already-decoded text, so decoding errors are not modelled. In the source, `for line in f` (main.py:28) sits outside the `try` of main.py:29-32. An undecodable byte in the ledger therefore raises `UnicodeDecodeError` and stops start-up, instead of being skipped the way a malformed line is.
- SeenLog.ReadSeenIds and Bot.Bot.ShowPremium: the upgrade-prompt log is also taken as decoded text. In the source, an undecodable byte makes the read at main.py:87-88 raise, and the press then fails before anything is appended.
