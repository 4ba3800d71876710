# SGTM: a verified model of the store, the worker and the reader

SGTM is a small site on which musicians share tracks. This project models the parts of
it that carry state, parsing or arithmetic, and proves what they do for every input,
every run and every interleaving.

* **Mentions.** The pattern that finds "feat @name" in a text is given its
  leftmost-first backtracking meaning (`Regex`, `FeatPattern`). A scan without
  backtracking is proved to find the same matches (`FeatPattern`), the list of all
  matches is characterised exactly (`FeatExtract`), what is matched is spelled out in
  characters and proved independent of letter case (`FeatCase`), printed credit lists
  read back (`FeatTexts`), and it is proved exactly when a match reaches from the title
  over the blank line into the description (`FeatJoin`).
* **Links.** `Featuring` and `Store` rebuild the featuring links of a post in one
  transaction, with a refused statement or an unknown mention at any point.
* **Tables.** `Schema`, `Accounts`, `Pages` and `SiteRuns` model the tables, signing in
  and the handlers that write, and prove an invariant over every sequential run;
  `PageRows` says exactly when a page stores a row and what stands in it.
* **Worker.** `Migrations` and `Worker` model the versioned migration of tracks,
  `WorkerProtocol` every interleaving of starting and closing the worker.
* **Reader.** `IpfsReader` and `ReaderRuns` model the process-backed reader behind
  downloads, with failures at any call, and compare it with a file.
* **Strings and sums.** `Decimal`, `Naming`, `Settings`, `HomePage`, `OpenPage`, `Bpm`.

A class keeps the form of the Go type whose fields its methods update; each method is
proved equal to a function on values, and the lemmas are about that function. `dafny
verify dfyconfig.toml` checks everything.

Conventions of the model:

* A table is the sequence of its rows in primary-key order. Identifiers come from one
  increasing counter, which stands for the snowflake node. `First` is the first matching
  row. A struct condition compares only fields that are not zero. A transaction is all or
  nothing, also on a panic. Clearing an association sets a foreign key to NULL and keeps
  the row.
* Which statement of a call the database refuses is a parameter: a lookup, another query
  or a write of a page, any statement of a rebuild or a registration, and any number of
  the UPDATEs of migrations during a pass. One refusal a call is enough otherwise: where
  the code goes on after it, a second one leaves the tables as it alone would. A session
  whose user cannot be loaded is a session without a user. Every answer of the operating
  system during one call of the reader is a parameter, and so are the answers of `ipfs`,
  SoundCloud and the tempo analyser.
* Characters are code points. `\s` of a pattern is five ASCII characters; `TrimSpace`
  uses the larger Unicode set; letter case is folded on ASCII, and `s` also folds with
  the long s, as `(?i)` does.
* A migration is a function from a row to a row and possibly a message; the shipped ones
  are such functions once the answers of their transaction are given.

Findings, where the code and what one would expect of it part:

* A mention of an unknown user is meant to be skipped (`continue`), but the lookup
  reports no error for it, nor for a statement that fails; the nil user is dereferenced
  and the whole rebuild is undone (`Store.EndsAs` says exactly when). The title
  "feat @ghost" without a description does it on every store without such a user
  (`Store.GhostPanics`).
* A second sign-in looks for the profile as Discord sent it, while the row holds the
  rewritten slug, avatar and Discord name. It succeeds exactly when nothing was
  rewritten, and otherwise fails on the unique email (`Accounts.SecondSignIn`). The
  profiles that the sign-in page builds are always rewritten
  (`Accounts.DiscordSignsInOnce`).
* The reader's `SeekCurrent` is relative to the last seek and not to the read position,
  negative positions are accepted, and a closed reader can be used again
  (`ReaderRuns.ReaderIsFileExactlyWhen` states the exact condition,
  `ReaderRuns.RelativeSeekDiffers` shows two calls that break it).
* Closing a worker is safe exactly when its `started` flag is set at the moment it is
  read; otherwise the close returns without waiting and a pass may still begin
  (`WorkerProtocol.CloseSafeExactly`, `WorkerProtocol.UnseenStartSurvives`).
* The processing version can go down, exactly when a migration below the old version,
  other than the first, is the first to fail (`Migrations.VersionDrops`,
  `Migrations.DropHappens`). It takes three migrations, so the shipped two never do it
  (`Migrations.ShortListsNeverDrop`).
* A lookup that fails during the duplicate check counts as "no such track"
  (`SiteRuns.UploadDuplicatesExactly`, `SiteRuns.LinkDuplicatesExactly`; a run in
  `SiteRuns.SentTwice`).
* Zero and the empty text filter nothing, so the address `/post/0` shows the first track
  there is (`Schema.LookupExactly`).
* Dates within the last second of a day before 1970 get the weekday of the next day
  (`OpenPage.WeekdayIsCalendar`).

## Model

| member | source | states |
|---|---|---|
| FeatPattern.GapLanguage | pkg/sgtmstore/store.go:426 | The stretch between keyword and '@' is in ws* sep ws* exactly when it has only whitespace, ':' and '=', with exactly one ':' or '=', or none and a blank |
| FeatPattern.RunGapTail | pkg/sgtmstore/store.go:426 | From any position the backtracking machine has one possible '@' after the keyword and accepts it exactly when the gap is accepted, with a maximal name and all trailing whitespace |
| FeatPattern.AlternativesAgree | pkg/sgtmstore/store.go:426 | The ambiguity is harmless: each of the four keyword alternatives fails or yields the same capture and end |
| FeatPattern.ScanIsMatch | pkg/sgtmstore/store.go:426 | At every position of every text the leftmost-first match of the pattern equals a scan without backtracking |
| FeatCase.MatchSpelled | pkg/sgtmstore/store.go:426 | The pattern matches at a position exactly when a keyword in any letter case, blanks around one of ":", "=" and " ", and "@" with a name stand there, character by character |
| FeatCase.HitSpelled | pkg/sgtmstore/store.go:426 | A match starts where it is found; its name is the longest run without blanks and commas behind the "@", and all blanks after it belong to the match |
| FeatCase.CaseDoesNotMatter | pkg/sgtmstore/store.go:426 | Texts that differ in the case of letters only (the long s included) have the same matches |
| FeatCase.BlanksAreSpaces | pkg/sgtmstore/store.go:442 | What ends a name in the pattern is white space for trimming too; the further characters that are trimmed are listed |
| FeatExtract.HitBounds | pkg/sgtmstore/store.go:426 | A match starts where it is found, its name follows '@', is nonempty and maximal, and only whitespace follows up to where the search resumes |
| FeatExtract.FindAllIsScanAll | pkg/sgtmstore/store.go:441 | Collecting all matches with the scan gives what collecting them with the backtracking machine gives |
| FeatExtract.FindAllExact | pkg/sgtmstore/store.go:441 | All matches of a text are ordered and disjoint, and no position where the pattern matches lies outside them |
| FeatExtract.ExactUnique | pkg/sgtmstore/store.go:441 | Order, disjointness and completeness determine the list of matches |
| FeatExtract.ScanAllMoved | pkg/sgtmstore/store.go:441 | Text in front of the place where a search starts does not change what is found |
| FeatTexts.KeywordAndGap | pkg/sgtmstore/store.go:426 | Any spelling of any of the four keyword alternatives, the dotted one included, with any accepted gap and '@' introduces a name |
| FeatTexts.PrintThenRead | pkg/sgtmstore/store.go:426-442 | A printed list of credits, separated by commas or whitespace, with or without a separator at the end, reads back to its names in order |
| FeatTexts.CapitalCredit | pkg/sgtmstore/store.go:426 | "Feat @alice" mentions alice |
| FeatJoin.JoinExact | pkg/sgtmstore/store.go:432-441 | Searching title, blank line and description finds, place by place, what searching the two apart finds exactly when no open keyword of the title is completed by the description; then the names are concatenated too |
| FeatJoin.PlainDescription | pkg/sgtmstore/store.go:432-441 | A description whose first character outside whitespace, ':' and '=' is not '@' never completes a title |
| FeatJoin.KeywordTitleCarries | pkg/sgtmstore/store.go:432-441 | A title that is a keyword and an accepted gap always draws in a mention at the head of the description |
| Featuring.TargetsByPart | pkg/sgtmstore/store.go:432-442 | Unless a keyword is carried over, the users looked up are those of the title followed by those of the description, trimmed and in lower case |
| Featuring.SearchedParts | pkg/sgtmpb/helpers.go:35-50 | The text that is searched is what was typed in and, where nothing was, what the provider says |
| Featuring.ResolvableExactly | pkg/sgtmstore/store.go:441-446 | The targets resolve exactly when every name in the text is, spaces and letter case aside, the slug of a user |
| Featuring.RebuiltCredits | pkg/sgtmstore/store.go:448-455 | The n-th new row is a featuring link from the post to the first user whose lower-cased slug is the n-th name, trimmed and in lower case |
| Featuring.RebuiltLinks | pkg/sgtmstore/store.go:434-455 | After a rebuild the rows sourced at the post are one featuring row per mention, in order, and no row targets the post |
| Featuring.RebuiltFrame | pkg/sgtmstore/store.go:434-455 | A rebuild loses no row, adds one per mention, clears only references to the post, and leaves other tables and all other columns untouched |
| Featuring.RebuildTwice | pkg/sgtmstore/store.go:430-456 | A second rebuild changes only row identifiers, for this post and every other |
| Store.Store.GetTrackByCID | pkg/sgtmstore/store.go:172-183 | Finds a post with the cid if there is one; an empty cid filters nothing and finds any post |
| Store.Store.GetTrackBySCID | pkg/sgtmstore/store.go:185-196 | Finds a post with the SoundCloud number if there is one; zero filters nothing |
| Store.Store.GetPostBySlugOrID | pkg/sgtmstore/store.go:302-323 | Answers with the first track asked for: by identifier for a nonzero number, by slug for another nonempty segment, any track otherwise; with an error exactly when there is none or the lookup fails |
| Store.Store.GetUserBySlug | pkg/sgtmstore/store.go:342-352 | The user at the least place whose lower-cased slug is the argument; no user, and no error, exactly when there is none or the lookup fails |
| Store.Store.CreatePost | pkg/sgtmstore/store.go:266-268 | Appends one row with a fresh identifier, or changes nothing when refused |
| Store.Store.UpdatePost | pkg/sgtmstore/store.go:371-373 | Rewrites the row with the identifier, or nothing when refused |
| Store.Store.CreateUser | pkg/sgtmstore/store.go:121-170 | Signs a profile in or registers it with its two events, statement by statement, with any statement refused; a success leaves exactly the stated rows, a new user without a role |
| Store.Store.CheckAndUpdatePost | pkg/sgtmstore/store.go:428-458 | Commits the rebuilt links exactly when every mention resolves and no statement is refused, panics at the first mention whose lookup finds nobody or fails, and otherwise leaves the database as it was; a commit adds for each name in the text a row to the first user of that name, letter case aside |
| Store.Store.RebuildLinks | pkg/sgtmstore/store.go:434-456 | The loop over the matches inside the transaction does that for any list of matches |
| Store.GhostPanics | pkg/sgtmstore/store.go:441-451 | A post titled "feat @ghost" without a description makes the rebuild panic on every store without a user of that name |
| Store.CapitalIsCredited | pkg/sgtmstore/store.go:441-455 | A post titled "feat @Alice" credits the user alice |
| Schema.AddressFindsTrack | pkg/sgtmpb/helpers.go:24-29 | The address of a stored track leads back to that track; a slug that looks like its number cannot shadow it |
| Schema.FoundIsTrack | pkg/sgtmstore/store.go:311-322 | Every lookup by path segment answers with a stored track |
| Schema.LookupExactly | pkg/sgtmstore/store.go:311-322 | A path segment finds the first track with that number or slug, and nothing exactly when there is none |
| Schema.NumericSlugIsIdentifier | pkg/sgtmstore/store.go:311-316 | A track is found by a slug that reads as a nonzero number only if that is its identifier |
| Decimal.ParsePrint | pkg/sgtmstore/store.go:311-312 | Printing and reading a number is the identity on all of int64 |
| Decimal.PrintParse | pkg/sgtmstore/store.go:311-312 | A segment that reads as a number prints back to itself exactly when it has no plus sign and no superfluous zero |
| Decimal.ParseExactly | pkg/sgtmstore/store.go:311-312 | A text reads as a number exactly when it is an optional sign and digits of that value and the value fits into 64 bits |
| Decimal.Limits | pkg/sgtm/page_new.go:134 | A printed number reads back exactly up to the limits of the signed and the unsigned width |
| Accounts.OwnRowMatches | pkg/sgtmstore/store.go:122-133 | A profile selects its own stored row exactly when avatar and Discord name are empty and the slug was kept |
| Accounts.SecondSignIn | pkg/sgtmstore/store.go:121-156 | After registering, signing in again succeeds exactly when the row kept the profile as given, and otherwise fails on the email and changes nothing |
| Accounts.SignInExactly | pkg/sgtmstore/store.go:121-170 | Exactly when a sign-in succeeds under any refused statement, and the rows it leaves column by column: one Login event of the first agreeing user, or a new user with the stated avatar address, Discord name and no role, and two events |
| Accounts.DiscordSignsInOnce | pkg/sgtm/page_auth.go:125-132 | A profile built from a Discord user is never kept as given, so the second sign-in always fails on the email |
| Accounts.ErrorChangesNothing | pkg/sgtmstore/store.go:137-168 | A call that returns an error leaves users and events as they were |
| Migrations.MigrateOutcome | pkg/sgtm/processing_worker.go:79-88 | Running the list records as version how many migrations succeeded and, at the first failure, its message |
| Migrations.ProcessedSettles | pkg/sgtm/processing_worker.go:61-98 | A selected track ends at the full version without an error or below it with one, and is not selected again |
| Migrations.PassSettles | pkg/sgtm/processing_worker.go:61-104 | A committed pass empties the selection, changes no other row, leaves every track at the full version or with an error, keeps versions in range, and a second pass changes nothing |
| Migrations.VersionDrops | pkg/sgtm/processing_worker.go:79-88 | The version drops exactly when a migration below the old version, other than the first, is the first to fail |
| Migrations.StopsAtFailure | pkg/sgtm/processing_worker.go:79-88 | A run gets as far as the first migration that fails on the row the ones before it left |
| Migrations.ShortListsNeverDrop | pkg/sgtm/processing_worker.go:79-88 | With at most two migrations, as shipped, no version drops |
| Migrations.DropHappens | pkg/sgtm/processing_worker.go:79-88 | With a third migration and a refused UPDATE in the second, a track at version 2 ends at version 1 |
| Migrations.ShippedContent | pkg/sgtm/processing_worker.go:116-140 | The two shipped migrations, whichever UPDATE is refused, keep the texts shown, never overwrite tags and never lose a genre |
| Migrations.ShippedTidies | pkg/sgtm/processing_worker.go:116-140 | A run of both that does not fail has one stated effect on the row, which is idempotent |
| Migrations.ShippedSettles | pkg/sgtm/processing_worker.go:116-140 | Once both are behind a track, a rerun in any later transaction changes nothing, except that a SoundCloud track without any title is written again |
| Migrations.RerunIsHarmless | pkg/sgtm/processing_worker.go:79-88 | For any list: when a beginning of it went through and leaves the row alone from then on, rerunning the whole list from the first migration gives what running it once gives |
| Migrations.PrefixThenAll | pkg/sgtm/processing_worker.go:59-104 | Processing with any shorter list and later with the whole list equals processing once with the whole list, failures included, when the shorter list settles a row it gets through |
| Migrations.ShippedPrefixThenAll | pkg/sgtm/processing_worker.go:59-140 | The same for the shipped list and every shorter one, whichever UPDATEs are refused |
| Worker.ProcessingWorker.SetupMigrations | pkg/sgtm/processing_worker.go:116-140 | After it the worker runs the two shipped migrations in order: a genre becomes missing tags, and the title of a SoundCloud track a missing provider title |
| Worker.ProcessingWorker.RunMigrations | pkg/sgtm/processing_worker.go:78-88 | The inner loop runs all migrations from the first until one fails |
| Worker.ProcessingWorker.ProcessingLoop | pkg/sgtm/processing_worker.go:59-104 | One pass processes every selected row and commits, or, when fetching, saving or committing fails, changes nothing |
| WorkerProtocol.StepKeeps | pkg/sgtm/processing_worker.go:23-57 | Every single step of starting, working and closing keeps the protocol invariant |
| WorkerProtocol.CloseIsSafe | pkg/sgtm/processing_worker.go:23-57 | In every interleaving a close that saw the flag finds the wait group set and returns only after the worker has, and at most one pass begins after cancellation |
| WorkerProtocol.OneLatePass | pkg/sgtm/processing_worker.go:23-57 | However a run goes on after cancellation, at most one pass begins, and none if the worker was in its loop |
| WorkerProtocol.GoesOn | pkg/sgtm/processing_worker.go:36-47 | A worker that is not cancelled can go on for any number of passes |
| WorkerProtocol.FailedPassIsLast | pkg/sgtm/processing_worker.go:37-39 | After a pass that failed no other begins |
| WorkerProtocol.CloseSafeExactly | pkg/sgtm/processing_worker.go:50-57 | In every state of the protocol a close is safe, whatever follows, exactly when the flag is set at the moment it is read; otherwise it returns at once and a pass can still begin |
| WorkerProtocol.UnseenStartSurvives | pkg/sgtm/processing_worker.go:50-57 | A close called before the worker was started is one after which a pass can begin |
| WorkerProtocol.WaitEnds | pkg/sgtm/processing_worker.go:36-56 | In every continuation of a waiting close the worker takes at most as many steps as it is away from its end, has returned after that many, and until then has a step to take; then the wait can return |
| IpfsReader.IpfsReadSeeker.Seek | pkg/sgtm/ipfs.go:88-107 | Closes pipe and command and moves the offset, or reports the old offset |
| IpfsReader.IpfsReadSeeker.Read | pkg/sgtm/ipfs.go:109-119 | Opens lazily at the offset and delivers the next bytes of the stream |
| IpfsReader.IpfsReadSeeker.Close | pkg/sgtm/ipfs.go:121-126 | Closes pipe and command |
| IpfsReader.IpfsReadSeeker.LockedClose | pkg/sgtm/ipfs.go:128-146 | Closes the pipe first and waits for the command after it, stopping at the first error |
| IpfsReader.IpfsReadSeeker.EnsurePipeOpen | pkg/sgtm/ipfs.go:148-171 | Creates a command only when there is no pipe, and keeps what was set when a step fails |
| ReaderRuns.StepAccounted | pkg/sgtm/ipfs.go:88-171 | Under any faults a successful seek or close leaves no pipe and no command, and a refused seek leaves the offset |
| ReaderRuns.RefusedExactly | pkg/sgtm/ipfs.go:88-171 | Under any faults, exactly when a call is refused, and which pipe, command and offset it leaves |
| ReaderRuns.NeverStarted | pkg/sgtm/ipfs.go:109-171 | After a process that did not start, every read is refused until the pipe is closed |
| ReaderRuns.EveryRunAccounted | pkg/sgtm/ipfs.go:88-171 | Over every run with failures at any call the pipe never outlives its command, every command is created once and ends once, and one is dropped unwaited only after its wait or its pipe had failed |
| ReaderRuns.LazyRefinesSimple | pkg/sgtm/ipfs.go:88-171 | Over every run without failures the lazy process gives the answers of a plain reader with a mark and a cursor |
| ReaderRuns.AgreesWithFile | pkg/sgtm/ipfs.go:88-107 | That reader answers as a file if and only if every seek goes to an existing place, no relative seek follows a read, and nothing follows a close |
| ReaderRuns.ReaderIsFileExactlyWhen | pkg/sgtm/ipfs.go:88-171 | The same for the process-backed reader from its first call |
| ReaderRuns.RelativeSeekDiffers | pkg/sgtm/ipfs.go:88-119 | After reading one byte a relative seek by nothing goes back to the start, where a file would stay |
| ReaderRuns.SeekThenReads | pkg/sgtm/ipfs.go:97-118 | From any state, a seek that returns k and the reads after it deliver the content from k on, however the system cuts it up; nothing past the end, and from the start when k is negative |
| ReaderRuns.ServeRange | pkg/sgtm/page_post.go:305-311 | Serving a byte range by seeking and copying delivers exactly that range |
| Naming.SplitNameRebuilds | pkg/sgtm/page_new.go:78-85 | The name of an uploaded file is base, dot and extension, the extension has no dot, and a name without a dot is kept whole |
| Naming.TagList | pkg/sgtmpb/helpers.go:64-73 | The loop over the slice trims every comma-separated piece; a blank string has no list |
| Naming.TagsRoundTrip | pkg/sgtmpb/helpers.go:64-73 | Two or more joined pieces always have a tag list, the trimmed comma parts of each piece in order, and clean pieces come back exactly |
| Naming.SoundCloudTagsListed | pkg/sgtm/page_new.go:168-172 | A SoundCloud track always has a tag list, made from its genre and its tags |
| Settings.Normalise | pkg/sgtm/page_settings.go:34-39 | The stored username is the one text that stands, in what was typed, between the spaces and behind the address and one '@', where these stand |
| Settings.CleanedExactly | pkg/sgtm/page_settings.go:34-39 | Every typed text has exactly one such name, the one the chain of trims computes |
| Settings.StoredEndsClean | pkg/sgtm/page_settings.go:34-39 | Whatever is typed, the stored username does not end in a space |
| Settings.ResavedDropsOneAt | pkg/sgtm/page_settings.tmpl.html:77-83 | Submitting the rendered form unchanged takes away one leading '@' and nothing else |
| Settings.ResavedIsIdentity | pkg/sgtm/page_settings.tmpl.html:77-83 | It is the identity exactly on names without a leading '@' |
| Settings.ResavesSettle | pkg/sgtm/page_settings.tmpl.html:77-83 | Repeated saves settle after exactly as many as there are leading '@' |
| HomePage.RenderTracks | pkg/sgtm/page_home.tmpl.html:28-82 | The streaming loop emits the markup of the tracks grouped into runs of one day |
| HomePage.CardsPartition | pkg/sgtm/page_home.tmpl.html:28-82 | Every track stands once, in order, in one card, and no card is empty |
| HomePage.CardsInPlace | pkg/sgtm/page_home.tmpl.html:31-54 | The item at any place of any card is the track at that place of the list, and the card's day is its day; so all tracks of a card share a day |
| HomePage.OneCardPerDay | pkg/sgtm/page_home.tmpl.html:31-51 | For a list sorted newest first and a monotone day, days of cards strictly decrease |
| HomePage.Balanced | pkg/sgtm/page_home.tmpl.html:32-79 | Cards are never nested, no item stands outside, and every card is closed |
| OpenPage.FillCounts | pkg/sgtm/page_open.go:35-58 | Whatever order the rows come in, each counter is the number of places in the table that hold a post of its kind |
| OpenPage.WeekdayIsCalendar | pkg/sgtmstore/store.go:203 | The weekday of a sort date is that of its calendar day exactly when the date does not lie in the last second of a day before 1970 |
| OpenPage.FillWeekdays | pkg/sgtm/page_open.go:69-78 | The index of every row is in range and each slot is the number of places that hold a track of its weekday |
| OpenPage.SlotsSumToTracks | pkg/sgtmstore/store.go:198-211 | The seven slots add up to the track count of the other query |
| OpenPage.KindsSumToPosts | pkg/sgtmstore/store.go:270-283 | The quantities by kind add up to the number of posts |
| OpenPage.MondayFirstPermutes | pkg/sgtm/page_open.tmpl.html:17-25 | The chart shows the same seven numbers from Monday on |
| Bpm.ExtractBPM | pkg/sgtm/processing.go:100-126 | The loop gives a number within 0.005 of the mean of the third fields, and an error exactly when the analyser fails, its output is blank, or some record is unreadable, short or not a number |
| Bpm.TempoIsTheMean | pkg/sgtm/processing.go:121-126 | The result is within 0.005 of the exact mean and between the rounded bounds of the records |
| Bpm.SumConcat | pkg/sgtm/processing.go:121 | The sum behind the mean does not depend on where the list is cut |
| Pages.Service.NewUpload | pkg/sgtm/page_new.go:43-102 | Stores an uploaded track unless its cid is known, and answers with the address of the new row; any other answer changes nothing |
| Pages.Service.NewLink | pkg/sgtm/page_new.go:104-198 | Stores a SoundCloud track unless its number is known or the link is not usable; any other answer changes nothing |
| Pages.Service.PostPage | pkg/sgtm/page_post.go:20-93 | Stores a trimmed nonblank comment of a signed-in user, and otherwise a view event; says which request and which refused statement gives which answer |
| Pages.Service.PostEditPage | pkg/sgtm/page_post.go:210-278 | The author and administrators, and nobody else, rewrite title, body and lyrics of the track, as typed and trimmed, and no other column; everybody else is sent away with the answer stated |
| Pages.Service.DetectRelationships | pkg/sgtm/page_post.go:129-188 | The author and administrators, and nobody else, rebuild the links of a track; with nothing refused it is done exactly when all names in the text are known, and crashes otherwise |
| Pages.AccessExactly | pkg/sgtm/page_post.go:241-247 | With an answered lookup access is given exactly to the author of the track and to administrators |
| Pages.Service.ProfilePage | pkg/sgtm/page_profile.go:24-50 | Records a view of a profile; it crashes, and changes nothing, exactly when the profile is unknown or its lookup fails |
| Pages.Service.CountedPage | pkg/sgtm/page_home.go:23-32 | Records a view of the home or statistics page |
| SiteRuns.InsertKeeps | pkg/sgtmstore/store.go:266-268 | Appending a good row that clashes with none keeps the invariant |
| SiteRuns.UploadKeeps | pkg/sgtm/page_new.go:63-101 | An upload whose check was answered keeps cids unique and the rest of the invariant |
| SiteRuns.LinkKeeps | pkg/sgtm/page_new.go:140-198 | A link whose check was answered keeps SoundCloud numbers unique and the rest |
| SiteRuns.VisitKeeps | pkg/sgtm/page_post.go:45-93 | A visit keeps comments nonblank and targets existing |
| SiteRuns.EditKeeps | pkg/sgtm/page_post.go:250-278 | An edit keeps the invariant |
| SiteRuns.DetectKeeps | pkg/sgtm/page_post.go:179-188 | Rebuilding links keeps the invariant; every link that points somewhere points to an existing track or user |
| SiteRuns.WorkKeeps | pkg/sgtm/processing_worker.go:59-104 | A pass with the shipped migrations keeps the invariant, versions in range among it, whichever of their UPDATEs are refused |
| SiteRuns.SignInKeeps | pkg/sgtmstore/store.go:121-170 | Signing in keeps emails unique, one Register and one LinkDiscord event per user, and the users of login events existing |
| SiteRuns.EveryRun | pkg/sgtm/page_new.go:200-202 | From an empty store, over every sequential run with any failures but an unanswered duplicate check: no two posts share a cid or SoundCloud number, comments are trimmed and nonblank, targets, authors and linked rows exist, emails are unique, each user has one Register and one LinkDiscord event, versions are in range, and nobody has a role |
| SiteRuns.RunAddsPlainUsers | pkg/sgtmstore/store.go:126-134 | No run makes an administrator: users of before stay as they are and new ones have no role |
| SiteRuns.UploadDuplicatesExactly | pkg/sgtm/page_new.go:63-72 | A stored upload makes a duplicate exactly when its lookup failed and its nonempty cid was there |
| SiteRuns.LinkDuplicatesExactly | pkg/sgtm/page_new.go:140-149 | A stored link makes a duplicate exactly when its lookup failed and its nonzero number was there |
| SiteRuns.SentTwice | pkg/sgtm/page_new.go:63-72 | The same file sent twice, the second time with a failing lookup, is stored twice |
| SiteRuns.AuthorsAreThere | pkg/sgtm/page_post.go:241-247 | In reachable states the author check never meets a missing author |
| SiteRuns.FirstIsLowestKey | pkg/sgtmstore/store.go:342-347 | In reachable states the row that a lookup finds first is the one with the lowest primary key |
| SiteRuns.PassKeepsTargets | pkg/sgtm/processing_worker.go:116-140 | A pass of the worker never changes whom a rebuild would credit |
| SiteRuns.UploadIsReachable | pkg/sgtm/page_new.go:87-101 | A stored upload is found at its own address, and its title and extension rebuild the file name |
| SiteRuns.EditChangesOneTrack | pkg/sgtm/page_post.go:241-278 | The author and administrators change the title, body and lyrics of one track and every other row stays; nobody else changes anything |
| SiteRuns.CommentShows | pkg/sgtmstore/store.go:325-340 | A stored comment shows up last under its own track and under no other |
| PageRows.CommentsListed | pkg/sgtmstore/store.go:325-340 | The comments of a track are the public comments that target it |
| PageRows.UploadStoresExactly | pkg/sgtm/page_new.go:43-102 | Exactly when an upload is stored, and every column of its row |
| PageRows.LinkStoresExactly | pkg/sgtm/page_new.go:104-198 | Exactly when a link is stored, and every column of its row |
| PageRows.VisitStoresExactly | pkg/sgtm/page_post.go:45-93 | Exactly when a visit stores a comment or a view, and every column of the row |
| PageRows.UnknownTrackStoresNothing | pkg/sgtm/page_post.go:29-34 | A visit of an unknown track stores nothing |
| PageRows.ProfileViewStored | pkg/sgtm/page_profile.go:24-50 | A visit of a profile stores one view of the first user with the slug |

## Left out

- OAuth, tokens, cookies, routing, gRPC, sitemap and templates other than the track list: plumbing over libraries.
- Concurrent requests: the duplicate check and the insert are two statements, so only sequential runs are claimed.
- Upper and lower case outside ASCII (except the long s in the pattern), and bytes that are not valid UTF-8.
- The retries, logging and timing of the worker beyond its single steps; the data race on its two fields is modelled as one access after another.
- Identifiers that are used up by a transaction that rolls back: the counter moves only when rows are stored.
- The transliteration of `slug.Make`: it is an arbitrary function.
- Reading a track number out of the resolved SoundCloud link, cover art, durations, ISRC and other columns that are only copied.
- Pages.Service.PostPage: does not model the JSON form of the page, which writes nothing.
- Pages.Service.PostEditPage: does not model the request that only shows the form, which writes nothing.
- Pages.Service.DetectRelationships: does not model the tempo extraction and download that the same page offers.
- Pages.Service.NewUpload: does not model a request without a content type, which panics before anything is stored.
- Settings.Normalise: only the two username fields; the others are trimmed and stored.
- IpfsReader.IpfsReadSeeker.Read: a process that outputs something else than the content of its cid is not modelled, and neither is a read that delivers bytes together with an error.
- Bpm.ExtractBPM: real numbers stand for floating point, so rounding errors, infinities and NaN inputs are not modelled.
- OpenPage.FillWeekdays: the rows are those of a correct group-by query; SQLite itself is not modelled.
- Worker.ProcessingWorker.ProcessingLoop: a migration that panics is not modelled.
