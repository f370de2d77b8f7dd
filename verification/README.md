# Verified model of the Google Authenticator PAM module

This project models the state that the PAM module keeps for a user, the logins that read and
rewrite it, and the arithmetic underneath, and proves what they promise.

* **The state file.** One text holds the secret, the options and the emergency scratch codes.
  `StateText` says what reading and writing an option means, for the text and for its lines;
  `StateFile` has the buffer that the procedures edit in place; `Scratch` and `StateInvariant` say
  what a well-formed file is and what every edit leaves alone.
* **The state machines.** `RateLimit`, `Reuse` (DISALLOW_REUSE), `TimeSkewReset` and `LastLogins`
  (grace period) each keep a bounded list in one option that has to stand for an unbounded history.
* **A login.** `Entry` splits what the user types, `Checks` are the three kinds of codes, `Login` is
  the mode loop and the rest of `google_authenticator` on the text, `Effects` what one login does
  to each entry of the file, `Outcomes` exactly when it succeeds, `Grace` what it means for the next
  login from the same host, `Passwords` how a password and a code share a text, `CounterMode` and
  `TotpMode` which kind of codes a file is for. `Ranges` has the figures. `Procedures` and `Module` are the
  same code on the buffer, proved equal. `compute_code` is an arbitrary function of the secret and a
  number, so different numbers may have the same code.
* **Runs and sessions.** `Runs` has any sequence of logins, `Sessions` any interleaving of sessions
  that read the file, decide, and replace it only if it is still the version they read, and
  `SerialSessions` what they achieve. `GraceRuns` and `SkewRuns` follow the slots of the hosts and the
  recorded attempts through a run. `ReuseGap` and `ReuseIff` show where DISALLOW_REUSE fails, and exactly when it holds; `LimitIff` does so for
  RATE_LIMIT.
* **Arithmetic.** `Base32` (section 6 of RFC 4648), `Sha1` (FIPS 180-4), `Otp` (section 2 of RFC
  2104, section 5 of RFC 4226); `KnownAnswers` holds them against published values.
* **The setup program.** `Setup` composes the secret file, `SetupReads` reads it back with the
  module's own functions, `FirstLogin` shows that the first code gets the user in, and `FromSetup`
  puts the theorems on sessions together for such a file.
  `Filename` expands the place of the secret file.

The functions on text (`SetCfgValue`, `RateLimit.Check`, `Reuse.Invalidate`, `TimeSkewReset.Check`,
`Checks.CheckCode`, `Login.Authenticate`, ...) are what the procedures on the buffer are proved
equal to, and what the theorems are about.

## Where the code and its promises part

* DISALLOW_REUSE is documented to let a time-based token be used at most once (FILEFORMAT). A code
  that is accepted because it sets a new TIME_SKEW is not put on the list, and the same code
  is then good for another login (`ReuseGap.SameLoginAgain`). With `noskewadj` the promise holds for
  every code function; without it, it fails for every code function with a clock that is off by two
  steps or more and three codes in a row that show it (`ReuseIff.EachStepOnceIff`). The condition,
  `ReuseIff.Off`, is one on the codes alone: each of the three has six digits and is found at its own
  step by the search, and the third is the first with its value in a window of three steps. It can be met
  (`ReuseIff.PlainIsOff`), for `compute_code` wherever three codes in a row are none of the four before
  them, and that is so for the secret of appendix D of RFC 4226 (`ReuseIff.RealPromiseIff`). The promise
  also holds in any run in which no login sets a new skew (`Runs.NoStepTwice`).
* RATE_LIMIT is documented as a limit on logins. A login within the grace period succeeds even when
  the rate limit has just refused it (`LimitIff.RefusedYetIn`), and the refusal is then not written
  down. For logins of every kind the promise holds if and only if there is no grace period
  (`LimitIff.LimitKeptIff`); for logins by codes it always holds (`Runs.RateLimitHolds`).
* HOTP mode is documented to depend on the presence of HOTP_COUNTER. The code asks for a positive
  number: time-based codes are looked at if and only if the option is missing or its number is not
  positive (`CounterMode.TimeCodesIff`; `CounterMode.CounterZeroIsTimeBased` is a file with the option
  in which such a code is accepted).
* TOTP mode is documented to depend on the presence of TOTP_AUTH. The code looks for the option's text
  anywhere in the file (`TotpMode.IsTotpIff`; `TotpMode.StrayFile` has the text and not the option). A host
  name that holds the text turns the mode on when it is recorded (`TotpMode.HostTurnsOn`). From a
  file in which no option that the module writes holds the text, no other login changes the mode
  (`TotpMode.ModeStays`).
* Where a password may stand before the code, an emergency code is first tried as a password of two more
  characters and a code of six digits. The module relies on that leaving no trace; but six digits that are
  the code of a step in the window or, without `noskewadj`, within 1500 steps, are decisive one way or the
  other, and the emergency code is not looked at (`Passwords.ScratchBehindPassword`).
* The user is asked once, but a second time if and only if the first question got no answer at all
  (`Outcomes.AskedTwiceIff`).
* When all ten slots belong to other hosts and none is older than now, a login is recorded under the
  name `LAST/`, which is never read (`LastLogins.RemembersIff`, and `LastLogins.EleventhHost` for a file).
* A host with characters the search does not know, or with more than 255, never finds its own slot again
  (`LastLogins.OddHostHasNoSlot`), so each of its logins takes another one. If its line is malformed
  (`LastLogins.MalformedIff`) that slot is lost for good, and ten such logins end all recording
  (`GraceRuns.UsableAndLost`, `GraceRuns.NobodyRecorded`).
* An option set in a file whose only line has no line end is glued to the secret
  (`StateText.NoLineEndGlues`).
* A new skew is within one of the true one, so with a window of one or two steps the code that was
  just entered may lie outside the new window (`TimeSkewReset.NewWindowReaches` says exactly when).

## Assumptions

* Texts contain no NUL. Theorems on what an edit leaves alone are about well-formed files
  (`StateInvariant.Tidy`): the first line is not empty, is no option and has a line end; line ends
  are `\n`; no later line starts with white space. The setup program writes such files
  (`SetupReads.SetupReadsBack`) and every login keeps them so (`Effects.LoginMoves`).
* The comparator of `qsort` subtracts unsigned numbers; `RateLimit.Sort` is the sorted order, which
  is what it yields for times whose differences fit an int (`RateLimit.CompareIff`).
* Effects and runs are about times below 2^32, host names without line ends, and steps, skews and
  counters that stay clear of the ends of `int` and `long` (`Effects.Sane`). The theorem on
  how long a host stays on record is about runs in which what is recorded reads back as itself or is
  malformed (`GraceRuns.Honest`), as it does for all hosts that fit the pattern (`GraceRuns.PlainIsHonest`).
* A login sees one time. The check of the version and the rename are one step, and every version has
  its own stamp. In `Sessions` `allow_readonly` is off.
* The theorem on the rate limit starts at a clock not before the interval, with listed times that are in
  order and not later (`Runs.Prior`).

## Model

| member | source | states |
|---|---|---|
| StateText.GetIsLookup | src/pam_google_authenticator.c:834-859 | reading an option from the text is looking its key up among the lines that are not blank |
| StateText.SetIsUpdate | src/pam_google_authenticator.c:861-945 | set_cfg_value is the keyed update of the list of lines: one line for the key is left, every other line stays, in order |
| StateText.LookupUpdate | src/pam_google_authenticator.c:834-945 | after an update the key reads as the new value, without leading blanks, and every other key as before |
| StateText.UpdateKeepsOthers | src/pam_google_authenticator.c:917-942 | the update keeps all lines for other keys, codes and the first line, in order, and leaves exactly one line for its key |
| StateText.SetReadsBackIff | src/pam_google_authenticator.c:884-888 | what is set reads back if and only if the key was there or the first line has a line end |
| StateText.NoLineEndGlues | src/pam_google_authenticator.c:884-888 | without a line end the new option is glued to the secret line and no option is there to read |
| StateFile.Buffer.GetCfgValue | src/pam_google_authenticator.c:834-859 | the scan over the bytes finds what the lookup in the text finds |
| StateFile.Buffer.SetCfgValue | src/pam_google_authenticator.c:861-945 | the in-place edit, with its resized copy and its deleting loop, leaves the updated text in a valid buffer; all writes are within bounds and the loop ends |
| StateFile.Buffer.MakeRoom | src/pam_google_authenticator.c:890-915 | shrinks in place and clears what is left over, or moves to a buffer of just the size needed |
| StateFile.Buffer.CheckScratchCodes | src/pam_google_authenticator.c:1186-1248 | the scan and the memmove over the bytes take out the line of the code, or change no byte |
| StateInvariant.SetKeeps | src/pam_google_authenticator.c:861-945 | an edit of an option keeps a file well formed, its secret line, its scratch codes and all other options |
| StateInvariant.ScanIsLineCodes | src/pam_google_authenticator.c:1190-1241 | in a well-formed file the scan for codes over the bytes is a scan over its lines |
| StateInvariant.ScratchKeeps | src/pam_google_authenticator.c:1222-1239 | a used scratch code leaves the file well formed, with the same secret and options and the list without its first occurrence |
| Scratch.ScratchCodeUsedOnce | src/pam_google_authenticator.c:1186-1248 | in any file: a code is accepted exactly when it is listed, and then its first occurrence is gone and the other codes and the first line stay |
| CText.ReadInt | src/pam_google_authenticator.c:1366 | a number printed with %d reads back with strtoul and a cast to int, whatever white space precedes and whatever but a digit follows |
| CText.ReadLong | src/pam_google_authenticator.c:1795 | a number printed with %ld reads back with strtol |
| CText.StrtoulExtend | src/pam_google_authenticator.c:1317 | text appended behind a number and something else does not change how it reads |
| RateLimit.LimitsReadBack | src/pam_google_authenticator.c:1013-1105 | the option written is the option read: limits and times |
| RateLimit.SortSorts | src/pam_google_authenticator.c:1072 | the sorted list is sorted and has the same times |
| RateLimit.CompareIff | src/pam_google_authenticator.c:830-832 | the comparator orders two times exactly if their difference fits an int |
| RateLimit.Prune | src/pam_google_authenticator.c:1073-1088 | the loop keeps the newest times of the window and reports if there are more than allowed |
| RateLimit.PrunedDecides | src/pam_google_authenticator.c:1070-1105 | with a list that stands for the whole history a call is decided as by the whole history, and the list it writes stands for the longer history |
| RateLimit.CheckTracks | src/pam_google_authenticator.c:1002-1125 | the same on the file: the decision is that of the whole history, other entries stay, and the file stands for one call more |
| RateLimit.NeverMoreThanTheLimit | src/pam_google_authenticator.c:1083-1088 | if every call is decided by the whole history, including any times listed before the first, no window as long as the interval holds more admitted calls than the limit |
| Ranges.AdmittedIff | src/pam_google_authenticator.c:1070-1105 | a call is admitted if and only if fewer calls than the limit, refused ones included, were made since the interval before it began; else it is refused |
| Ranges.LimitsIff | src/pam_google_authenticator.c:1013-1030 | printed limits are read if and only if they are 1 to 100 attempts in 1 to 3600 seconds |
| RateLimit.RateLimit | src/pam_google_authenticator.c:1002-1125 | the procedure on the buffer decides and edits as the function on the text |
| Reuse.EditIsFilter | src/pam_google_authenticator.c:1305-1351 | the loop that edits the list in place fails exactly for a malformed list or a listed step, and else leaves exactly the entries within the window |
| Reuse.InvalidateLists | src/pam_google_authenticator.c:1283-1379 | a step is accepted exactly when the list is readable and lacks it, and then it is listed behind the entries that are kept; nothing else in the file changes |
| Ranges.KeptIff | src/pam_google_authenticator.c:1343-1350 | after a step is accepted another one is listed if and only if it was and is less than the window away |
| Reuse.PrunedListSuffices | src/pam_google_authenticator.c:1343-1350 | with a clock that does not run backwards, what the list forgets can never be matched again, so a step not listed was never used |
| TimeSkewReset.AttemptsReadBack | src/pam_google_authenticator.c:1436-1531 | the recorded attempts are written and read back, each with its skew and sign |
| TimeSkewReset.ResetIff | src/pam_google_authenticator.c:1467-1518 | a new skew is set exactly after three attempts at steps that go up by one or two, the two older skews within one of the present one, and no repeated code |
| TimeSkewReset.AgainIff | src/pam_google_authenticator.c:1471-1478 | an attempt is passed over if and only if it is for the step that the last one was for |
| TimeSkewReset.AverageIs | src/pam_google_authenticator.c:1493-1506 | the skew that is stored is a third of the sum of the three, cut off towards zero |
| TimeSkewReset.AverageIsClose | src/pam_google_authenticator.c:1493-1506 | the truncated average is within one of the newest skew |
| TimeSkewReset.NewWindowReaches | src/pam_google_authenticator.c:1506-1516 | the step just entered lies in the new window if and only if the window is three or more, or the average came out right |
| TimeSkewReset.CheckFollows | src/pam_google_authenticator.c:1413-1541 | the file always remembers the last three attempts since the last reset, repeats not counted, and each verdict is the one for those |
| TimeSkewReset.CheckKeeps | src/pam_google_authenticator.c:1413-1541 | whatever attempts a file holds, only the two options change, and a reset stores a skew within one of the present one |
| LastLogins.WordReadsBack | src/pam_google_authenticator.c:1712-1745 | host and time that are written for a word read back in within_grace_period |
| LastLogins.SearchReadsBackIff | src/pam_google_authenticator.c:1661-1668 | in the search they read back exactly if the host has at most 255 characters, all of the kinds its pattern names |
| LastLogins.FindIsChosen | src/pam_google_authenticator.c:1639-1690 | whatever the ten options hold, the search picks the slot of the host, else the first of those with the least time (a free one counts as 0) if that is before now, else none |
| LastLogins.UpdateRecords | src/pam_google_authenticator.c:1626-1706 | in any well-formed file, and for any host without line ends: an update rewrites the chosen slot only, and from then on the last login that the host reads back is the one just made if Remembers holds, and else what the other slots say; of a time that does not fit the buffer behind a long host the first digits are kept |
| Ranges.SlotValueIs | src/pam_google_authenticator.c:1699-1701 | a slot holds host and time as far as they fit 278 characters |
| Ranges.PlainHostIff | src/pam_google_authenticator.c:1664-1668 | the hosts the search can find again are 1 to 255 letters, digits, colons, percent signs, dots and dashes |
| LastLogins.RemembersIff | src/pam_google_authenticator.c:1639-1706 | a host that fits the pattern is remembered exactly when it has a slot, or one is free or older than now |
| LastLogins.OddHostHasNoSlot | src/pam_google_authenticator.c:1661-1675 | a host that does not fit the pattern never has a slot of its own in the search, whatever was written for it before |
| LastLogins.MalformedIff | src/pam_google_authenticator.c:1661-1675 | what is written for a host is a malformed line exactly if the pattern takes nothing of it, or leaves something that does not start with a number |
| LastLogins.EleventhHost | src/pam_google_authenticator.c:1687-1706 | a file with ten hosts at the present time: a login from an eleventh finds no slot, is written under LAST/, changes no slot and is not remembered |
| Entry.ParseIff | src/pam_google_authenticator.c:2046-2089 | what is typed ends in a code exactly when its last six characters are digits, or the last eight with no zero in front, with nothing before it where that is asked; the code is their value |
| Entry.CodeRanges | src/pam_google_authenticator.c:2061-2078 | a six-digit mode yields a number below 10^6, an eight-digit one a number from 10^7 up |
| Entry.ListedCodes | src/pam_google_authenticator.c:1207-1220 | every code the file lists has eight digits, whatever the file is |
| Entry.ShownIsTyped | src/pam_google_authenticator.c:2046-2089 | a code typed as it is shown, with leading zeros, is read as that code |
| Ranges.StepSizeIs | src/pam_google_authenticator.c:947-972 | STEP_SIZE is a number from 1 to 60, and 30 without the option |
| Ranges.WindowSizeIs | src/pam_google_authenticator.c:1250-1270 | WINDOW_SIZE is a number from 1 to 100, and 3 without the option |
| Ranges.WindowReaches | src/pam_google_authenticator.c:1566-1580 | a code is found in the window if and only if one of the steps from (window-1)/2 before to window/2 behind has it |
| Ranges.SearchReaches | src/pam_google_authenticator.c:1595-1607 | the search for a new skew finds a code if and only if a step less than 1500 off has it, and then the nearest one, of two as near the earlier |
| Checks.NothingChanged | src/pam_google_authenticator.c:1995-1999 | a check that passes a code on has changed neither the file nor the flag, and without the flag the file is as it was |
| Checks.MustApart | src/pam_google_authenticator.c:1799-1806 | the flag for advancing the counter does not take part in the verdict, and only a right counter code clears it |
| Checks.LongCodeIsScratch | src/pam_google_authenticator.c:1557-1560 | a code of seven digits or more is never compared with a computed one |
| Checks.ShortCodeIsNotScratch | src/pam_google_authenticator.c:1211-1220 | a code of less than eight digits never matches a scratch code |
| Checks.AcceptedIsExplained | src/pam_google_authenticator.c:1547-1617 | what is accepted matches: a listed code, the least number in the counter window, the first step in the window, or else the nearest step within 1500 |
| Checks.CounterStored | src/pam_google_authenticator.c:1794-1801 | a counter that is stored reads back and changes nothing else |
| Checks.CheckDoes | src/pam_google_authenticator.c:2095-2128 | what each verdict means for a well-formed file: which entry changes, and to what |
| Login.LoopIsTryAll | src/pam_google_authenticator.c:1992-2132 | with a secret, the mode loop is: check every code that was entered, in order, against the same file until one is decisive; the guard never fires, and a second question is asked exactly if the first got no answer and nothing was decided before |
| Login.GuardFires | src/pam_google_authenticator.c:2000-2011 | without a secret the guard fires exactly when one of the first three modes gets a code; nothing is accepted or changed |
| Effects.TryAllIs | src/pam_google_authenticator.c:2093-2131 | the decisive code was checked against the unchanged file, and the counter must advance only in counter mode |
| Effects.CheckEntries | src/pam_google_authenticator.c:2095-2128 | each verdict changes its own entries of the file only |
| Effects.FinishKeeps | src/pam_google_authenticator.c:2153-2172 | behind the loop only the counter goes up, by one, and only the record of hosts changes besides |
| Effects.LoginMoves | src/pam_google_authenticator.c:1953-2214 | a whole login, from the file read to the file left: no entry changes but those its verdict changes, success needs a grace period or an accepted code, nothing is spent without being written, and the guard needs a missing secret |
| Effects.AcceptedIsEntered | src/pam_google_authenticator.c:1959-2132 | no login is let in by a code but one that was entered in one of the four modes and matches, on a file with a valid secret that the rate limit admitted |
| Passwords.CodeBehindPassword | src/pam_google_authenticator.c:2046-2143 | the code at the end of what is typed first is what is checked, if it is decisive nothing else is, and what stands before it is handed on; a password may stand there except at the prompt without forward_pass |
| Passwords.ForwardedPassword | src/pam_google_authenticator.c:2081-2089 | at the prompt with forward_pass the right code of an unused step behind any password lets the user in, and that password is handed on |
| Passwords.AcceptedAlone | src/pam_google_authenticator.c:2081-2089 | at the prompt without forward_pass only a text that is just six or eight digits lets anyone in |
| Passwords.ScratchBehindPassword | src/pam_google_authenticator.c:2032-2041 | a listed emergency code behind a password: its last six digits are tried first, and it lets the user in if and only if those are not decisive; at the prompt without forward_pass it always does |
| Passwords.OnlyTheseTexts | src/pam_google_authenticator.c:2013-2041 | the password of an earlier module plays no part at the prompt, the answers none with use_first_pass, and a second answer none if there was a first |
| Outcomes.ScratchIff | src/pam_google_authenticator.c:1186-1248 | a scratch code is accepted exactly when it is listed, whatever the mode |
| Outcomes.CounterIff | src/pam_google_authenticator.c:1772-1806 | in counter mode a code of six digits is accepted exactly when some number in the window has it |
| Outcomes.StepIff | src/pam_google_authenticator.c:1550-1589 | in time-based mode a code is accepted by the window exactly when the first step that has it is unused |
| Outcomes.ResyncIff | src/pam_google_authenticator.c:1413-1616 | a code sets a new skew exactly when it is not in the window, is found by the search, and is the third of three attempts since the last reset at steps that go up by one or two, with skews within one of each other and no repeated code |
| Outcomes.SuccessIff | src/pam_google_authenticator.c:1953-2176 | exactly when a login succeeds: in the grace period, with no say for the rate limit and nothing written; else if the rate limit passes it and the first decisive code is accepted and the password can be handed on |
| Outcomes.AskedTwiceIff | src/pam_google_authenticator.c:2020-2041 | in every mode: who is asked at all is asked twice if and only if the first question gets no answer |
| Outcomes.AskedIff | src/pam_google_authenticator.c:2000-2041 | with a secret, who is asked at all: with try_first_pass exactly those whose first password holds no decisive code in either of the two ways it is read |
| Outcomes.MustIff | src/pam_google_authenticator.c:1805-1806 | the counter is to advance exactly when a code was tried in vain and none was right by the counter |
| Outcomes.CounterExactly | src/pam_google_authenticator.c:2153-2162 | a login not let in by the counter moves it by one if a code was tried in vain and no_increment_hotp is not set, and by none else |
| Grace.SlotsLeft | src/pam_google_authenticator.c:1712-2172 | a login that puts nobody on record leaves all ten slots as they were |
| Grace.LoginRecorded | src/pam_google_authenticator.c:2165-2172 | a login by a code changes the chosen slot only, and is the last login of its host from then on if Remembers holds |
| Grace.GraceNext | src/pam_google_authenticator.c:1970-1980 | a login is within the grace period exactly if the last login that the file holds for its host says so, whatever is typed and whatever the rate limit says |
| Grace.NoCodeNeeded | src/pam_google_authenticator.c:1970-1980 | so the next login from the same host needs no code exactly while the grace period lasts, counted from the login just made or, if that was not remembered, from the one before |
| GraceRuns.UsableAndLost | src/pam_google_authenticator.c:1639-1706 | conservation, for any hosts and times: over any run of logins the slots that can be used and those lost to malformed lines are as many as there were |
| GraceRuns.AtMostTenLost | src/pam_google_authenticator.c:1639-1706 | so at most ten logins of a run ever lose a slot |
| GraceRuns.LostForGood | src/pam_google_authenticator.c:1671-1675 | a slot that holds a malformed line keeps it through every run |
| GraceRuns.NobodyRecorded | src/pam_google_authenticator.c:1639-1706 | when ten are lost nobody is put on record any more: no login changes the last login of any host |
| GraceRuns.OddHostLoses | src/pam_google_authenticator.c:1661-1675 | a host whose name starts with a character the pattern does not know loses a slot at each login that takes one |
| GraceRuns.LoginStartsRecord | src/pam_google_authenticator.c:1626-1706 | a login that takes a slot puts its host on record; the others to reckon with are those whose slots are not older |
| GraceRuns.HostStays | src/pam_google_authenticator.c:1626-1706 | the ten slots are a least-recently-used record: a host stays, with its time, through every run in which the other hosts put on record and the slots lost are together fewer than the usable slots; the clock may run as it likes |
| GraceRuns.GraceLasts | src/pam_google_authenticator.c:1712-1761 | so after any such run its grace period lasts exactly as long as it should |
| TotpMode.IsTotpIff | src/pam_google_authenticator.c:557-559 | is_totp says yes exactly if the option is there, or its text stands in some line at another place or as the start of a longer name |
| TotpMode.StrayFile | src/pam_google_authenticator.c:557-559 | a file for which it says yes without the option |
| TotpMode.ModeStays | src/pam_google_authenticator.c:557-559 | no run of logins from hosts without a quote in their names changes its answer, if no line of an option the module writes holds the text; the lines that hold it stay the same |
| TotpMode.HostTurnsOn | src/pam_google_authenticator.c:1700-1702 | a recorded login of a host whose name holds the text makes the answer yes |
| TotpMode.SetupModeIs | src/google-authenticator.c:814-845 | for a file of the setup program the answer is yes exactly if time-based codes were chosen |
| TotpMode.SetupModeStays | src/google-authenticator.c:814-845 | and stays so through every run of logins from hosts without a quote in their names |
| CounterMode.TimeCodesIff | src/pam_google_authenticator.c:2097-2111 | the code of the current step is accepted as that of a time step if and only if HOTP_COUNTER is missing or its number is not positive |
| CounterMode.CounterZeroIsTimeBased | src/pam_google_authenticator.c:2097-2111 | in a file of the setup program with HOTP_COUNTER 0 added, the option is there and the code of the current step is accepted |
| FirstLogin.StepAccepted | src/pam_google_authenticator.c:1547-1589 | in time-based mode the code of the current step is accepted, if no step is used yet |
| FirstLogin.CounterAccepted | src/pam_google_authenticator.c:1767-1807 | in counter mode the code of the counter is accepted, by the counter itself |
| FirstLogin.FirstLoginSucceeds | src/pam_google_authenticator.c:1953-2132 | with a file of the setup program, whatever was chosen, the first login with the code of the current step, or of counter 1, succeeds |
| FirstLogin.ShownCodeLetsIn | src/google-authenticator.c:50-94 | the code that the setup program itself computes is that code, and lets the user in |
| Runs.ScratchUses | src/pam_google_authenticator.c:1222-1239 | over any run, the uses of a scratch code and the copies left add up to the copies there were |
| Runs.CounterUses | src/pam_google_authenticator.c:1767-1807 | over any run the counter never goes back, accepted counters lie between the first and the last, and none is accepted twice |
| Runs.FailedLoginsAdvance | src/pam_google_authenticator.c:2153-2162 | a login without a right counter code advances the counter by at most one, however many codes were tried |
| Runs.NoStepTwice | src/pam_google_authenticator.c:1283-1379 | with DISALLOW_REUSE, a clock that does not run backwards and no new skew, all accepted steps of a run are different |
| Runs.StepUsedOnce | src/pam_google_authenticator.c:1283-1379 | the same as a count: at most one login of a run for each step |
| Runs.NoSkewAdjNoResync | src/pam_google_authenticator.c:1591 | with noskewadj no login of a run is let in by a new skew, so the above holds |
| Runs.RateStep | src/pam_google_authenticator.c:1959-1966 | one login more: the file goes on standing for all calls, and the call was decided by all of them |
| Runs.RateLimitHolds | src/pam_google_authenticator.c:1002-1125 | from any list of times in order and not later than the start: in no window as long as the interval do codes let in more logins of a run than the limit |
| Runs.ListIsPrior | src/pam_google_authenticator.c:1013-1069 | a valid option stands for the times it lists |
| LimitIff.LimitKeptIff | src/pam_google_authenticator.c:1959-1980 | for every key, every choice with a rate limit and every code function with six-digit codes: in all runs from that file no window as long as the interval holds more successes, of whatever kind, than the limit, if and only if there is no grace period |
| LimitIff.RealLimitKeptIff | src/pam_google_authenticator.c:1959-1980 | the same for compute_code |
| LimitIff.KeptWithoutGrace | src/pam_google_authenticator.c:1959-1980 | without a grace period the limit holds for all successes, from any well-formed file that has no host on record |
| LimitIff.BrokenByGrace | src/pam_google_authenticator.c:1959-1980 | with one there is always a run that breaks it: the same login from the same host, once more often than the limit allows, in one second |
| LimitIff.RefusedYetIn | src/pam_google_authenticator.c:1959-1980 | on any file with a limit of one: after a login that put its host on record, the same login at the same time is refused by the rate limit and succeeds |
| SkewRuns.RunFollows | src/pam_google_authenticator.c:1413-1541 | after any run of logins the file remembers the last three attempts since the last reset, repeats not counted |
| SkewRuns.NewSkewIff | src/pam_google_authenticator.c:1413-1541 | and a login is let in by a new skew exactly when its attempt, after those of the run, warrants the reset |
| SkewRuns.RunDiffers | src/pam_google_authenticator.c:1471-1478 | no two neighbours among the attempts of a run are for the same step |
| SkewRuns.ThreeCodes | src/pam_google_authenticator.c:1467-1518 | so a login by a new skew is the third of three attempts in a row whose codes differ, each from the one before, at steps that go up by one or two with skews within one of each other |
| ReuseGap.ResyncNotListed | src/pam_google_authenticator.c:1591-1613 | a login by a new time skew leaves the list of used steps as it was |
| ReuseGap.AcceptedAgain | src/pam_google_authenticator.c:1583-1613 | so, if the window is three or more and no step near by has the same code, the check accepts the same code again at once |
| ReuseGap.SameLoginAgain | src/pam_google_authenticator.c:1583-1613 | and the very same login, repeated at the same moment, is let in again: DISALLOW_REUSE does not hold without noskewadj |
| ReuseIff.EachStepOnceIff | src/pam_google_authenticator.c:1283-1379 | for every choice of arguments and every code function with a clock that is off by two steps or more and shows it: on all files with DISALLOW_REUSE, in all runs with a server clock that does not run backwards, no step lets anyone in twice, if and only if noskewadj is set |
| ReuseIff.RealEachStepOnceIff | src/pam_google_authenticator.c:1283-1379 | compute_code itself: if three of its codes in a row are none of the four before them, the same |
| ReuseIff.RealPromiseIff | src/pam_google_authenticator.c:1283-1379 | and they are, for the secret of appendix D of RFC 4226: with compute_code the promise holds if and only if noskewadj is set |
| ReuseIff.WithoutAdjustment | src/pam_google_authenticator.c:1591 | with noskewadj the promise holds for every code function |
| ReuseIff.WithAdjustment | src/pam_google_authenticator.c:1591-1613 | without it, and for any code function with such a clock, a run that breaks the promise: three logins in a row, and the third one once more |
| ReuseIff.PlainIsOff | src/pam_google_authenticator.c:1595-1607 | there are code functions with such a clock, for every key |
| Sessions.SerialChain | src/pam_google_authenticator.c:2189-2213 | however sessions interleave, the files written form a chain: each is one login on the file just before it, at times in order |
| Sessions.Appended | src/pam_google_authenticator.c:677-700 | a login that is written was decided on the very file it replaces |
| Sessions.ChainStep | src/pam_google_authenticator.c:677-700 | every event keeps the chain and what each open session has read |
| SerialSessions.FinishIff | src/pam_google_authenticator.c:677-700 | whatever happens in between, a session with something to write is written and ends as its login does if and only if no other session was written since it opened; else it is refused and nothing changes |
| SerialSessions.LoneSession | src/pam_google_authenticator.c:2189-2213 | a session with nobody else about leaves the file its login leaves, and lets its user in exactly if its login does |
| SerialSessions.QueueIsRun | src/pam_google_authenticator.c:2189-2213 | the converse of the chain: every run of logins is what sessions one after the other come to, with the same last file and the same successes |
| Sessions.ScratchAcrossSessions | src/pam_google_authenticator.c:677-700 | a scratch code lets in no more sessions than there are copies of it |
| Sessions.CounterAcrossSessions | src/pam_google_authenticator.c:677-700 | a counter value lets in at most one session, and only one between the first and the last counter |
| Sessions.StepAcrossSessions | src/pam_google_authenticator.c:677-700 | with DISALLOW_REUSE a step lets in at most one session, as long as none sets a new skew |
| Sessions.RateLimitAcrossSessions | src/pam_google_authenticator.c:1959-1966 | no window as long as the interval holds more sessions let in by a code than the limit |
| FromSetup.CodesOnce | src/google-authenticator.c:820-845 | from a file of the setup program, in any number of sessions: an emergency code lets in no more of them than it was written times, a counter value at most one |
| FromSetup.LimitHolds | src/google-authenticator.c:932-943 | from such a file, the rate limit that was chosen holds across all sessions let in by codes |
| FromSetup.LimitHoldsForAll | src/google-authenticator.c:932-943 | and if no session has a grace period, for all sessions that succeed in whatever way |
| FromSetup.StepsOnce | src/google-authenticator.c:878-887 | from such a file with -d, and noskewadj, every step lets in at most one session |
| Procedures.NumberOption | src/pam_google_authenticator.c:947-972 | the option is its number if that is all there is and in range, else 0; its default if missing |
| Procedures.EditList | src/pam_google_authenticator.c:1305-1351 | the loop over the list in memory is the edit of the text |
| Procedures.InvalidateTimebasedCode | src/pam_google_authenticator.c:1283-1379 | the procedure on the buffer answers and edits as the function on the text |
| Procedures.ReadPairs | src/pam_google_authenticator.c:1432-1465 | the loop that shifts the two arrays keeps the last three pairs of the option |
| Procedures.Compare | src/pam_google_authenticator.c:1489-1506 | the loop over the arrays decides if the attempts are steady, and adds up the skews |
| Procedures.WritePairs | src/pam_google_authenticator.c:1522-1531 | the loop prints the attempts, with a blank before each but the first |
| Procedures.CheckTimeSkew | src/pam_google_authenticator.c:1413-1541 | the procedure on the buffer answers and edits as the function on the text |
| Procedures.CheckCounterbasedCode | src/pam_google_authenticator.c:1767-1807 | the loop over the window finds the least match, and stores the number after it |
| Procedures.SearchSkew | src/pam_google_authenticator.c:1595-1607 | the loop that does not stop at its first hit still finds the nearest skew |
| Procedures.CheckTimebasedCode | src/pam_google_authenticator.c:1547-1617 | the procedure on the buffer answers and edits as the function on the text |
| Module.UpdateLogindetails | src/pam_google_authenticator.c:1626-1706 | the loop over the ten slots, and the edit, are those of the text |
| Module.WithinGracePeriodOf | src/pam_google_authenticator.c:1712-1761 | the loop over the ten slots finds the time of the host |
| Module.Pass | src/pam_google_authenticator.c:2000-2131 | one pass of the mode loop |
| Module.ModeLoop | src/pam_google_authenticator.c:1992-2132 | the loop with its locals leaves the buffer and the flags as the recursive form |
| Module.GoogleAuthenticator | src/pam_google_authenticator.c:1953-2214 | the whole procedure on the buffer comes to the outcome of the function on the text, and what it hands over for writing is the text in the buffer |
| Otp.HmacSha1 | src/hmac.c:24-80 | for keys of any length, the result is the HMAC of section 2 of RFC 2104, cut off or filled with zeros |
| Otp.PadKey | src/hmac.c:39-48 | the block holds the key filled up with zeros, every byte changed |
| Otp.Challenge | src/pam_google_authenticator.c:1391-1394 | the loop writes the number as eight bytes, most significant first |
| Otp.Truncate | src/pam_google_authenticator.c:1398-1406 | the loop samples four bytes at an offset within the hash, as section 5.3 of RFC 4226 does; the result is below 10^6 |
| Otp.ComputeCode | src/pam_google_authenticator.c:1390-1408 | compute_code is the HOTP value of the secret and the number |
| Otp.GetSharedSecret | src/pam_google_authenticator.c:775-812 | decoding in place gives the bytes of the first line, or nothing if there is no valid secret |
| Ranges.SecretIs | src/pam_google_authenticator.c:775-812 | a first line of more than 100000 characters is no secret; a shorter one that decodes to one byte at least is what it decodes to |
| Otp.GenerateCode | src/google-authenticator.c:50-94 | the setup program computes the code of the decoded key, or -1 if it is empty, too long or not Base32 |
| Otp.GeneratedIsCode | src/google-authenticator.c:50-94 | for every key within the limit that is compute_code on the secret the module reads from a file starting with the key |
| Base32.DecodeEncode | src/base32.c:22-95 | decoding an encoding gives back the bytes, for every buffer that can hold them |
| Base32.DecodeCanonical | src/base32.c:28-42 | texts that differ only in separators, case and 0, 1, 8 for O, L, B decode alike |
| Base32.MistypedRead | src/base32.c:32-39 | a text with 0, 1 or 8 decodes as the one with O, L or B in its place |
| Base32.SeparatorsSkipped | src/base32.c:28-30 | blank, tab, both line ends and dash are skipped |
| Base32.AlphabetIs | src/base32.c:80-92 | the letters are those of table 3 of RFC 4648 |
| Base32.DigitIff | src/base32.c:41-48 | a character is a digit if and only if it is a letter, 2 to 7, or 0, 1 or 8; small letters count as capitals |
| Base32.EncodeInChunks | src/base32_prog.c:121-125 | chunks of a multiple of five bytes can be encoded one by one |
| Base32.PushDigit | src/base32.c:31-51 | a digit shifted in adds its five bits below the bits that wait, whatever stale bits stand above |
| Base32.Base32Decode | src/base32.c:22-62 | the loop with its 32-bit accumulator yields the bytes the bits make up, also when it writes over its own input |
| Base32.Base32Encode | src/base32.c:64-95 | the loop with its 32-bit accumulator yields the letters the bits make up, cut off at the buffer size |
| Sha1.SwapIsBigEndian | src/sha1.c:118-128 | the swap of a little-endian load is a big-endian read |
| Sha1.SameFunctions | src/sha1.c:64-74 | the functions written with or are those of section 4.1.1 of FIPS 180-4 |
| Sha1.StepIsRound | src/sha1.c:87-104 | each macro of the unravelled form is the round of its place, under a renaming of the registers |
| Sha1.UnravelText | src/sha1.c:182-189 | the eighty macros follow each other in the order A to T |
| Sha1.LoadWords | src/sha1.c:118-174 | the eighty words are those of the message schedule |
| Sha1.LoopedRounds | src/sha1.c:206-209 | the loops that shift five registers compute the eighty rounds |
| Sha1.UnravelledRounds | src/sha1.c:180-194 | so does the unravelled form, with its result in E, T, A, B and C |
| Sha1.PaddingFills | src/sha1.c:308-317 | the padding fills whole blocks |
| Sha1.BlocksConcat | src/sha1.c:262-267 | hashing is block by block: a whole number of blocks can be hashed before the rest is known |
| Sha1.CountArithmetic | src/sha1.c:241-246 | the two counters with their carry add up as one 64-bit number |
| Sha1.Context.Transform | src/sha1.c:107-217 | one block more in the digest, by either form |
| Sha1.Context.Update | src/sha1.c:236-270 | however the input comes in pieces, the digest, the waiting block and the two counters are those of the bytes so far |
| Sha1.Context.Final | src/sha1.c:300-327 | the result is the hash of all bytes as section 5.1.1 and 6.1.2 of FIPS 180-4 define it |
| KnownAnswers.HashOfAbc | src/sha1.c:300-327 | the hash of "abc" is a9993e36 4706816a ba3e2571 7850c26c 9cd0d89d |
| KnownAnswers.AppendixD | src/pam_google_authenticator.c:1390-1408 | the codes of the secret of appendix D of RFC 4226 for the counts 1 to 7 are those of the table there |
| Setup.AddOption | src/google-authenticator.c:389-398 | the option goes behind the first line, in place, within the array |
| Setup.OptionIsSecond | src/google-authenticator.c:389-398 | an option that is added becomes the second line |
| Ranges.BufferSizeIs | src/google-authenticator.c:447-456 | the 216 characters of the array are those of its declaration |
| Setup.Compose | src/google-authenticator.c:777-943 | for every key and every accepted choice all pieces fit the array of 216 characters, and the result is the file with the options in reverse order |
| SetupReads.SetupReadsBack | src/google-authenticator.c:777-943 | the module reads the same key and the same emergency codes from it, and it is well formed |
| SetupReads.SetupSettingsReadBack | src/google-authenticator.c:814-943 | the module reads the mode, the window and the step that were chosen |
| SetupReads.SetupListsReadBack | src/google-authenticator.c:878-943 | the module reads an empty list of used steps and the rate limit that were chosen, or none |
| SetupReads.RateAnswers | src/google-authenticator.c:932-943 | 3 logins in 30 seconds for yes, nothing for no or -1, and else the two numbers given |
| SetupReads.WindowAnswers | src/google-authenticator.c:893-931 | 17 for yes, nothing for no (which reads as 3), 3 steps or 1 count for the least one, and else the number given |
| SetupReads.OtherAnswers | src/google-authenticator.c:777-887 | the other options stand in the file if and only if they were chosen |
| Filename.SecretFilename | src/pam_google_authenticator.c:261-320 | the loop that substitutes in place yields the specification with each token replaced, or fails where a token has no value |
| Filename.UserExpanded | src/pam_google_authenticator.c:281-294 | ${USER} between texts without tokens becomes the name of the user |
| Filename.HomeExpanded | src/pam_google_authenticator.c:281-290 | ${HOME} between such texts becomes the home directory, or the expansion fails if there is none |
| Filename.TildeExpanded | src/pam_google_authenticator.c:272-279 | so does a tilde at the start |
| Filename.TokensCover | src/pam_google_authenticator.c:267-318 | the tokens are cut from the original specification, all of it and in order, so nothing substituted is looked at again |
| Filename.TildePlaces | src/pam_google_authenticator.c:266-319 | a tilde stands for the home directory only at the start or right behind a literal slash |
| Filename.RenderIff | src/pam_google_authenticator.c:272-302 | the expansion fails exactly if some token that is there has no value |

## Left out

- PAM conversation, logging, privilege switching, SELinux labels, owner and permission checks: what the host answers is an input.
- A missing secret file and `nullok`: there is no state then.
- Running out of memory.
- Memory wiping and constant-time behaviour; the result of the skew scan that does not stop early is modelled.
- The short time between the check of the version and the rename, and versions with equal inode, size and time.
- Time that passes during a login.
- Login.Authenticate: the host's answer to setting PAM_AUTHTOK is an input; names of users and of the service are not part of the model.
- RateLimit.SortSorts: the wrap-around of the comparator for times whose difference does not fit an int (RateLimit.CompareIff) is not modelled; what qsort does with such an order is undefined.
- GraceRuns.HostStays: leaves out runs that record a host whose line reads back as that of another host, as a name with a plus sign and digits does (LastLogins.MalformedIff), because such a line may take the other host's place; GraceRuns.GraceLasts shares this. GraceRuns.UsableAndLost and GraceRuns.LostForGood do not.
- Runs.NoStepTwice: covers runs in which no login sets a new skew, because with one it fails (ReuseGap.SameLoginAgain, ReuseIff.WithAdjustment).
- Runs.StepUsedOnce: covers runs in which no login sets a new skew, for the same reason.
- Sessions.StepAcrossSessions: covers logs in which no login sets a new skew, for the same reason.
- Runs.RateLimitHolds: counts logins by codes, because the module lets logins within the grace period in whatever the limit says (LimitIff.LimitKeptIff is about all of them).
- Sessions.RateLimitAcrossSessions: counts sessions let in by codes, for the same reason.
- FromSetup.LimitHolds: counts sessions let in by codes, for the same reason (FromSetup.LimitHoldsForAll is about all of them, without a grace period).
- TimeSkewReset.CheckFollows: is about steps that fit an int and skews the search can find; CheckKeeps has no such limit.
- Sha1.Context: a message is shorter than 2^31 bytes a piece, as the parameter is an int; the byte order is that of a little-endian machine.
- Setup.Compose: the choices and the random bytes are inputs; the loop that draws a new number for a code with a leading zero depends on randomness and is not part of the model.
- QR codes, URLs, option parsing and questions of the setup program; the demonstration programs, totp.html and packaging.
