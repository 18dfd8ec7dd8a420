# PaperStack, modelled in Dafny

PaperStack is a mobile app for collecting research papers, with a Spring backend for
accounts. This project models the parts of it that decide what happens to data.

**Backend**
- Sign-up issues a six-digit one-time code. The code is stored with a five-minute expiry and mailed to the address.
- Verifying the code consumes it and registers the user.
- Login answers 404, 401, 500 or a Bearer token response.

**Client screens**
- Sign-up validation.
- The verification countdown, resend and verify.
- The login merge of the stored profile.
- The account screen's load, image pick and save.
- The add-paper screen: the combined CrossRef and arXiv search with its retry loop and deduplication, one-tap add of a result, and the manual form's submit with its PDF checks and file naming.
- The PDF viewer's zoom, double tap and page tracking, and the host side that shows them.

**How the model is built**
- Stateful parts are classes whose methods are proved against specification functions: the OTP table, the user repository, each screen's state, the key-value store shared by the screens, and the viewer script's globals.
- Pure parts are functions with lemmas: the selection query, the merges, the record builders and the string helpers.
- Outside inputs are parameters: clocks, random draws, network answers, file-system outcomes and library functions.

## Model

| member | source | states |
|---|---|---|
| OtpRepository.FindValidOtp | paperstack-backend/src/main/java/com/paperstack/api/repository/OtpRepository.java:12-13 | A found row has the requested address and code, an expiry strictly after `now`, and is unused. No earlier row qualifies. The result is empty exactly when no row meets all four conditions. |
| OtpRepository.ExpiryIsStrict | paperstack-backend/src/main/java/com/paperstack/api/repository/OtpRepository.java:12 | A row whose expiry instant is `now` itself is not found. |
| OtpRepository.MarkUsed | paperstack-backend/src/main/java/com/paperstack/api/service/OtpService.java:36-38 | Only the chosen row changes, and only its `used` flag, which becomes true. |
| OtpRepository.FindAfterAppend | paperstack-backend/src/main/java/com/paperstack/api/repository/OtpRepository.java:12-13 | Appending a row never hides a row the query already finds. The new row is found only when no earlier row qualifies. |
| OtpRepository.MarkUsedIsFinal | paperstack-backend/src/main/java/com/paperstack/api/service/OtpService.java:36-38 | Once a row is marked used, the query never finds it again, at any instant. Whatever it finds instead was already valid. |
| OtpService.CodesAreSixDigitStrings | paperstack-backend/src/main/java/com/paperstack/api/service/OtpService.java:44-51 | Six `nextInt(10)` draws spell a six-digit string. Every six-digit string, leading zeros included, is spelled by some draws. |
| OtpService.Issued | paperstack-backend/src/main/java/com/paperstack/api/service/OtpService.java:22-30 | The table after issuing keeps every earlier row in place and gains one last row: the address and code, unused, expiring 300 seconds after `now`. That row is valid at exactly the instants before its expiry. |
| OtpService.Verified | paperstack-backend/src/main/java/com/paperstack/api/service/OtpService.java:32-42 | Verification succeeds exactly when some row is valid for the address and code, and then a valid row ends up used. The table keeps its length, and a failure leaves it unchanged. |
| OtpService.VerifiedSpec | paperstack-backend/src/main/java/com/paperstack/api/service/OtpService.java:32-42 | Verification succeeds exactly when some row is valid for the address and code. Then exactly one such row is marked used and nothing else changes. On failure the table is unchanged. |
| OtpService.IssuedCodeVerifies | paperstack-backend/src/main/java/com/paperstack/api/service/OtpService.java:22-30 | A freshly issued code verifies for its address at any instant before issue time plus five minutes. |
| OtpService.IssuedCodeExpires | paperstack-backend/src/main/java/com/paperstack/api/service/OtpService.java:16-30 | From the expiry instant on, verification behaves as on the table without the issued row, and that row stays unused. |
| OtpService.IssueKeepsEarlierCodes | paperstack-backend/src/main/java/com/paperstack/api/service/OtpService.java:22-30 | Issuing a new code does not invalidate an earlier one: a query that succeeded before still succeeds and consumes the same row. |
| OtpService.VerifiedCodeIsConsumed | paperstack-backend/src/main/java/com/paperstack/api/service/OtpService.java:32-42 | A code is single-use. When one row holds the address and code, a second verification fails at any later instant. |
| OtpService.OtpService.GenerateOtp | paperstack-backend/src/main/java/com/paperstack/api/service/OtpService.java:44-51 | The loop builds the code spelled by the draws, six digits long. |
| OtpService.OtpService.GenerateAndSaveOtp | paperstack-backend/src/main/java/com/paperstack/api/service/OtpService.java:22-30 | The table gains one unused row for the address, expiring five minutes after `now`, and the row's code is returned. Earlier rows are untouched. |
| OtpService.OtpService.VerifyOtp | paperstack-backend/src/main/java/com/paperstack/api/service/OtpService.java:32-42 | The answer and the new table are those of the verification specification. |
| SignupRequest.ValidRequestFields | paperstack-backend/src/main/java/com/paperstack/api/dto/auth/SignupRequest.java:10-17 | A request is valid exactly when both of these hold. The address has 1 to 50 characters, one of them above U+0020, and passes the e-mail check. The password has 8 to 100 characters, one of them above U+0020. |
| AuthController.UserRepository.Save | paperstack-backend/src/main/java/com/paperstack/api/controller/AuthController.java:71 | The table gains the user as its last row, and the address then exists. |
| AuthController.EmailService.SendVerificationEmail | paperstack-backend/src/main/java/com/paperstack/api/controller/AuthController.java:56 | Exactly one mail, to that address and carrying that code, is handed to the mail sender. |
| AuthController.NewJwtResponse | paperstack-backend/src/main/java/com/paperstack/api/dto/auth/JwtResponse.java:10-16 | The two-argument constructor keeps the token and the address, and the type is "Bearer". |
| AuthController.AuthController.RegisterUser | paperstack-backend/src/main/java/com/paperstack/api/controller/AuthController.java:48-59 | An invalid body gets 400 before the method runs. A known address gets 400 and nothing changes. Otherwise one code is issued, the same code is mailed to the address, and the answer is 200. Sign-up never adds a user. |
| AuthController.AuthController.VerifyOtp | paperstack-backend/src/main/java/com/paperstack/api/controller/AuthController.java:61-74 | The status is 200 exactly when the code verifies. Then the code is consumed and a user with the encoded password is saved, without checking for an existing user. Otherwise the answer is 400 with no user added. |
| AuthController.AuthController.AuthenticateUser | paperstack-backend/src/main/java/com/paperstack/api/controller/AuthController.java:76-100 | The answer is 404 exactly when the address is unknown, and then the credentials are never checked. Otherwise rejected credentials give 401. An authentication failure other than bad credentials, or a token provider that throws, gives 500. Success gives 200 with a Bearer response for the request's address. |
| AuthController.SignupThenVerify | paperstack-backend/src/main/java/com/paperstack/api/controller/AuthController.java:48-74 | For a new address, a valid sign-up followed by the mailed code within five minutes answers 200 twice and registers the address. |
| Text.Trim | paperstack/src/screens/Auth/LoginScreen.js:27 | The result is `s[i..j]` with only blanks outside it, and it starts and ends with a non-blank character. It is empty exactly when the string is all blanks. |
| Text.SplitSeveralIffContains | paperstack/src/screens/AddPaperScreen.js:187 | A split yields more than one piece exactly when the separator occurs. |
| Text.Before | paperstack/src/screens/VerificationScreen.js:46 | `split(c)[0]` is a prefix without `c`. When `c` occurs, the prefix is followed by `c`. When `c` is absent, it is the whole string. |
| Text.AfterLast | paperstack/src/screens/AddPaperScreen.js:201 | `split(c).pop()` is a suffix without `c`. When `c` occurs, the character just before it is a `c`, so it is the part after the last `c`. When `c` is absent, it is the whole string. |
| Text.SplitPiecesFree | paperstack/src/screens/AddPaperScreen.js:187 | No piece of a split contains the separator. |
| Text.SplitJoinPair | paperstack/src/screens/AddPaperScreen.js:90 | For a two-character separator of distinct characters, splitting a join gives back the pieces when none contains the separator. |
| Text.DecimalRoundTrip | paperstack/src/screens/VerificationScreen.js:36 | Reading back `n.toString()` gives `n`. |
| Text.ZeroPadKeepsValue | paperstack/src/screens/VerificationScreen.js:36 | `padStart` with zeros keeps a numeral all digits and keeps its value. |
| SignUpScreen.ValidateForm | paperstack/src/screens/Auth/SignUpScreen.js:24-51 | The form passes exactly when all five checks pass. Each error is reported exactly when it is the first check that fails, and the reported check does fail. |
| SignUpScreen.ClientAcceptsWhatServerRefuses | paperstack/src/screens/Auth/SignUpScreen.js:40-43 | A form the client accepts can still be refused by the backend: a 101-character password. |
| SignUpScreen.ServerAcceptsWhatClientRefuses | paperstack/src/screens/Auth/SignUpScreen.js:35-38 | Eight no-break spaces are blank to the client but pass the backend's `@NotBlank` and size checks. |
| SignUpScreen.SignUpScreen.HandleSignUp | paperstack/src/screens/Auth/SignUpScreen.js:53-70 | A failing form yields the alert of its first failing check, and nothing else changes. A passing form makes one sign-up call with the entered values. On success the app navigates to verification with them. Loading ends false. |
| VerificationScreen.TickCountdown | paperstack/src/screens/VerificationScreen.js:20-28 | A cleared interval changes nothing. A running one takes the time to `prevTime <= 1 ? 0 : prevTime - 1`, and stays scheduled exactly while time is left. The time never goes negative or up. |
| VerificationScreen.ResendAsWritten | paperstack/src/screens/VerificationScreen.js:64-70 | As written, a successful resend sets the time to 300 and leaves the interval as it was. A cleared interval stays cleared, so the next tick changes nothing. |
| VerificationScreen.Resend | paperstack/src/screens/VerificationScreen.js:64-70 | As intended, a successful resend sets the time to 300 with the interval scheduled, so the next tick leaves 299 seconds. |
| VerificationScreen.TicksCountDown | paperstack/src/screens/VerificationScreen.js:19-31 | After any number of ticks the time left lies between zero and its start. |
| VerificationScreen.StoppedStays | paperstack/src/screens/VerificationScreen.js:19-31 | Once the interval is cleared, the countdown never changes again. |
| VerificationScreen.RunningCountdown | paperstack/src/screens/VerificationScreen.js:19-31 | A running countdown follows the tick function and stays scheduled exactly while time is left. |
| VerificationScreen.ResendFreezesCountdown | paperstack/src/screens/VerificationScreen.js:64-70 | As written, the resend the button allows freezes the countdown at 300 seconds for good, with the button disabled. |
| VerificationScreen.ResendRestartsCountdown | paperstack/src/screens/VerificationScreen.js:64-70 | As intended, after a resend `300 - n` seconds are left after n seconds, and after five minutes the countdown is back at zero. |
| VerificationScreen.FormatTime | paperstack/src/screens/VerificationScreen.js:33-37 | The display is digits, a colon, then exactly two digits. |
| VerificationScreen.FormatTimeRoundTrip | paperstack/src/screens/VerificationScreen.js:33-37 | Reading the display back gives the seconds, so distinct times show differently. |
| VerificationScreen.VerifiedUser | paperstack/src/screens/VerificationScreen.js:44-48 | The record has exactly the keys address, name and avatar. The avatar is null. The name is the part of the address before the first `@`. |
| VerificationScreen.VerificationScreen.constructor | paperstack/src/screens/VerificationScreen.js:14-17 | The countdown starts at 300 seconds with the timer running and no resend in flight. |
| VerificationScreen.VerificationScreen.Tick | paperstack/src/screens/VerificationScreen.js:20-28 | The countdown takes one step of `TickCountdown`: a running timer counts down by one, the tick that reaches zero stops it, and a stopped timer changes nothing. The countdown stays within 0 to 300. |
| VerificationScreen.VerificationScreen.HandleResendCode | paperstack/src/screens/VerificationScreen.js:64-77 | A resend already in flight does nothing. Otherwise one sign-up call is made. A success restarts the countdown at 300, with the timer running again (the corrected resend), and the in-flight flag ends false either way. |
| VerificationScreen.VerificationScreen.PressResend | paperstack/src/screens/VerificationScreen.js:108-111 | A disabled button does nothing, so a resend happens only at zero with the timer stopped. A successful resend starts a new running countdown from 300, and the button is disabled again; a failed one leaves it at zero. |
| VerificationScreen.VerificationScreen.HandleVerify | paperstack/src/screens/VerificationScreen.js:39-62 | A failed call leaves the store as it was. A success stores the verified user record, and the token only when it is non-empty. |
| LoginScreen.MergeLoginUser | paperstack/src/screens/Auth/LoginScreen.js:40-46 | The merged profile keeps every other key and sets the address. The name, avatar and timestamp each keep a truthy stored value and otherwise take their default (the address before `@`, null, now). The name is truthy exactly when the stored one was or the default is non-empty. |
| LoginScreen.LoginMergeIdempotent | paperstack/src/screens/Auth/LoginScreen.js:40-46 | Logging in again as the same address changes nothing, once the first login wrote a non-empty timestamp. |
| LoginScreen.LoginAfterVerification | paperstack/src/screens/Auth/LoginScreen.js:40-46 | Right after verification, a login with the same address only adds the timestamp to the stored record. |
| LoginScreen.LoginScreen.HandleLogin | paperstack/src/screens/Auth/LoginScreen.js:26-58 | Blank fields give the alert with no call and no store change. Otherwise one login call is made. On success the token is stored, then the merged profile; on failure the store is unchanged. |
| AccountScreen.SavedProfile | paperstack/src/screens/AccountScreen.js:38-44 | The saved profile keeps every other key and sets the name, avatar and timestamp. It has an address key exactly when the stored one had. |
| AccountScreen.FormOf | paperstack/src/screens/AccountScreen.js:23-24 | The form shows the stored name and avatar when truthy, and otherwise `''` and null. |
| AccountScreen.SaveThenLoad | paperstack/src/screens/AccountScreen.js:17-47 | Reloading a saved profile shows the saved name and avatar, up to the form's defaults for falsy values. |
| AccountScreen.LoadSaveFixedPoint | paperstack/src/screens/AccountScreen.js:17-47 | Loading and saving without edits changes only the timestamp, for a profile already in the form's shape. |
| AccountScreen.ProfileEditSurvivesLogin | paperstack/src/screens/AccountScreen.js:38-44 | A later login keeps an edited non-empty name, a truthy avatar and the save's timestamp. Only the address is replaced. |
| AccountScreen.AccountScreen.LoadUserData | paperstack/src/screens/AccountScreen.js:17-29 | A stored profile becomes the screen's user and fills the form. Without one nothing changes. |
| AccountScreen.AccountScreen.PickImage | paperstack/src/screens/AccountScreen.js:61-79 | Without permission, or on a cancelled pick, the image is unchanged. Otherwise the picked URI becomes the avatar. |
| AccountScreen.AccountScreen.HandleSaveProfile | paperstack/src/screens/AccountScreen.js:31-59 | The store's profile becomes the saved profile and the screen's user. The form keeps its values and editing ends. |
| AppStorage.KeyValueStore.SetItem | paperstack/src/screens/AccountScreen.js:47 | The key holds the new value, and no other key changes. |
| PaperSearch.FamilyName | paperstack/src/screens/AddPaperScreen.js:48-51 | The family name is the last space-separated piece of the trimmed query. It is a suffix of the query with no space, and the whole trimmed query when it has no space. |
| PaperSearch.AuthorsText | paperstack/src/screens/AddPaperScreen.js:90 | The text is never empty, and is "Unknown" without authors. A single author gives their trimmed name, or "Unknown" when that is empty. Several authors give their names joined by ", ". |
| PaperSearch.AuthorsTextLists | paperstack/src/screens/AddPaperScreen.js:90 | Splitting the text at ", " gives back every author's name in order, when no name contains ", " and the text is not a nameless single author's "Unknown". |
| PaperSearch.FromCrossRef | paperstack/src/screens/AddPaperScreen.js:87-97 | The DOI is both the id and the DOI, and the URL is the PDF address. The authors are the author text. Title, journal and year are taken when present and non-empty, and otherwise get their defaults, so none is empty. A zero count stays 0. |
| PaperSearch.YearText | paperstack/src/screens/AddPaperScreen.js:92 | A year prints as a numeral that reads back as the year, and "Unknown" when there is none. |
| PaperSearch.MapCrossRef | paperstack/src/screens/AddPaperScreen.js:137-147 | One result per work, in order. |
| PaperSearch.NewItems | paperstack/src/screens/AddPaperScreen.js:112-114 | A work is kept exactly when it is in the batch and its DOI is not already a result id. |
| PaperSearch.NewItemsInOrder | paperstack/src/screens/AddPaperScreen.js:112-114 | The kept works are those at the increasing list of exactly the positions whose DOI is new: an order-preserving filter, each position once. |
| PaperSearch.MergeFamilyResults | paperstack/src/screens/AddPaperScreen.js:112-125 | Earlier results stay first and unchanged. The appended results are the converted new works in batch order, each with a new id, and every work with a new DOI is among them. |
| PaperSearch.MergedDoisPresent | paperstack/src/screens/AddPaperScreen.js:112-125 | After the merge, every work of the batch has its DOI among the result ids. |
| PaperSearch.MergeFamilyIdempotent | paperstack/src/screens/AddPaperScreen.js:112-125 | Merging the same batch twice adds nothing the second time. |
| PaperSearch.ArxivPdfUrl | paperstack/src/screens/AddPaperScreen.js:200-203 | The address is the arXiv PDF prefix, the id's last `/`-segment, then ".pdf". The middle has no `/` and ends the id. It follows a `/` of the id when there is one, and is the whole id otherwise. |
| PaperSearch.ArxivEntries | paperstack/src/screens/AddPaperScreen.js:187 | The feed is a leading piece without the tag followed by the entries, each after an `<entry>` tag. No entry contains the tag, and there are none exactly when the feed has no tag. |
| PaperSearch.ArxivPdfUrlDownloadable | paperstack/src/screens/AddPaperScreen.js:265 | Every arXiv PDF address passes the one-tap address check. |
| PaperSearch.MagicNeedsFiveCharacters | paperstack/src/screens/AddPaperScreen.js:308-309 | Checking no more than five characters of the text read back is the same as checking that the whole text starts with `%PDF-`. |
| PaperSearch.SanitizedStem | paperstack/src/screens/AddPaperScreen.js:285 | There is one character per title character. ASCII letters and digits are kept, lowercased, and everything else becomes `_`. |
| PaperSearch.SanitizeIdempotent | paperstack/src/screens/AddPaperScreen.js:285 | Sanitising twice is sanitising once. |
| PaperSearch.FileName | paperstack/src/screens/AddPaperScreen.js:285-286 | The name is the stem, `_`, the timestamp digits, then ".pdf". It has no `/`, so the file stays in the documents directory. |
| AddPaperScreen.CrossRefRequests | paperstack/src/screens/AddPaperScreen.js:75-153 | As intended, title and keyword searches make one request, with `query.title=` or `query=`. An author search makes two requests, the full query then the family name, unless the first threw. |
| AddPaperScreen.CrossRefResults | paperstack/src/screens/AddPaperScreen.js:75-153 | Outside author mode there is one result per work fetched. In author mode, a first request that throws gives nothing. Every result comes from CrossRef. |
| AddPaperScreen.FamilyMatchesIncluded | paperstack/src/screens/AddPaperScreen.js:101-125 | In author mode the exact matches stay first and unchanged, and every family-name work's DOI is among the results. |
| AddPaperScreen.CrossRefResultsAsWritten | paperstack/src/screens/AddPaperScreen.js:75-153 | As the code runs, an author search whose first request threw gives nothing. Otherwise there is one CrossRef result per work of the first answer, with the work's DOI as id. |
| AddPaperScreen.AuthorSearchAsWritten | paperstack/src/screens/AddPaperScreen.js:103-104 | As the code runs, the author search makes only the first request, and its results are a prefix of the intended ones. |
| AddPaperScreen.AuthorSearchLosesFamilyMatch | paperstack/src/screens/AddPaperScreen.js:103-104 | Input that shows the discrepancy: no exact match and one family-name match give no result as written, while the intended search lists the match. |
| AddPaperScreen.OtherSearchesAsWritten | paperstack/src/screens/AddPaperScreen.js:128-150 | Title and keyword searches are the same as written and as intended. |
| AddPaperScreen.ArxivOutcome | paperstack/src/screens/AddPaperScreen.js:160-183 | The kept attempt is one of the three. It is the first that settled, or, when it rejected, all three rejected. |
| AddPaperScreen.ArxivResult | paperstack/src/screens/AddPaperScreen.js:195-213 | An entry with an id gives an arXiv result with that id, no DOI, a count of 0, and a PDF address that passes the one-tap check. |
| AddPaperScreen.ArxivPrefix | paperstack/src/screens/AddPaperScreen.js:190-214 | Result k is the arXiv result of entry k, which has an id. When fewer results than entries come out, the next entry has no id. With ids everywhere there is one result per entry. |
| AddPaperScreen.ArxivResults | paperstack/src/screens/AddPaperScreen.js:185-214 | Nothing unless the kept attempt resolved with an OK status. Then the entries' results up to the first entry without an id. |
| AddPaperScreen.ArxivAlerts | paperstack/src/screens/AddPaperScreen.js:185-233 | A rejection gives the alert title of its message. After an OK response, an alert is raised exactly when the entry loop stopped short of the last entry, and it is "Search Error". Any other response raises none. |
| AddPaperScreen.ArxivResultsDownloadable | paperstack/src/screens/AddPaperScreen.js:190-214 | Every arXiv result comes from arXiv and can be added with one tap. |
| AddPaperScreen.MissingIdIsSearchError | paperstack/src/screens/AddPaperScreen.js:216-233 | The `ReferenceError` raised by an entry without `<id>` is reported as "Search Error", in the wording of Hermes and of V8 alike. |
| AddPaperScreen.FetchArxivWithRetry | paperstack/src/screens/AddPaperScreen.js:160-183 | One to three attempts are made, and the loop stops at the first that settles. Only after the third failure is the outcome a rejection. The wait after failure k is 1000·k ms. |
| AddPaperScreen.AppendArxivEntries | paperstack/src/screens/AddPaperScreen.js:190-214 | The loop appends the results of the entries up to the first one without an id. It reports an abort exactly when some entry lacks an id. |
| AddPaperScreen.SearchArxiv | paperstack/src/screens/AddPaperScreen.js:156-234 | Earlier results are kept. The arXiv results and alerts are those of the kept attempt. |
| AddPaperScreen.SearchCrossRef | paperstack/src/screens/AddPaperScreen.js:74-153 | The requests made and results pushed are those of the intended CrossRef search. |
| AddPaperScreen.SelectedPaper | paperstack/src/screens/AddPaperScreen.js:320-337 | The one-tap record is fresh: not starred, unread, in "All Papers", pages "Unknown". It takes the result's title, PDF address, DOI and count, the downloaded file, and the Remote tag. Authors, journal and year are kept when non-empty and are otherwise "Unknown Author", "Unknown Journal" and the current year. |
| AddPaperScreen.SubmittedPaper | paperstack/src/screens/AddPaperScreen.js:528-545 | The form's record is fresh, with the form's title and DOI. Authors, journal and year are kept when non-empty and are otherwise "Unknown Author", "Unknown Journal" and the current year. Without a PDF its tag, colour, address and file are all null: the DOI/Manual fallback is never taken. With a PDF they are the attachment's. |
| AddPaperScreen.SubmitAttachment | paperstack/src/screens/AddPaperScreen.js:478-525 | Without a PDF there is no attachment. The submit gives up exactly when a remote download throws or is not an existing file starting with `%PDF-`, or a local copy throws. Otherwise a remote PDF keeps its address, takes the downloaded file and the Remote tag; a local one becomes the new path, with the Local tag. |
| AddPaperScreen.WithPaper | paperstack/src/screens/AddPaperScreen.js:339-345 | The library becomes the new paper followed by the earlier ones in order. Every other key is unchanged. |
| AddPaperScreen.AddPaperScreen.constructor | paperstack/src/screens/AddPaperScreen.js:12-23 | The form is empty apart from the current year, with keyword search and no results. |
| AddPaperScreen.AddPaperScreen.SearchPapers | paperstack/src/screens/AddPaperScreen.js:32-247 | A blank query clears the results and requests nothing. Otherwise the results are the CrossRef results followed by the arXiv results. The alerts are the arXiv alerts plus "No Results" when the list is empty, and searching ends false. |
| AddPaperScreen.AddPaperScreen.HandlePaperSelect | paperstack/src/screens/AddPaperScreen.js:250-358 | A result without a downloadable PDF address is refused with the store unchanged. Otherwise the download goes to the sanitised file name, and an existing file starting with `%PDF-` puts the record first in the library. Submitting ends false. |
| AddPaperScreen.AddPaperScreen.HandleSubmit | paperstack/src/screens/AddPaperScreen.js:463-565 | An empty title gives the alert and nothing else. Otherwise a remote PDF is downloaded and checked, and a local one is copied. Unless that fails, the record goes first in the library. Submitting ends false. |
| PdfViewerScreen.Clamp | paperstack/src/screens/PDFViewerScreen.js:387 | The scale lands in [0.5, 3.0], and a scale already in range is kept. |
| PdfViewerScreen.ClampMonotone | paperstack/src/screens/PDFViewerScreen.js:387 | A larger request never gives a smaller scale. |
| PdfViewerScreen.ToggledScale | paperstack/src/screens/PDFViewerScreen.js:372 | A double tap asks for 2.0 exactly when the scale is 1.0, and for 1.0 otherwise. |
| PdfViewerScreen.ToggleAlternates | paperstack/src/screens/PDFViewerScreen.js:371-373 | After the first double tap the scale alternates between 1.0 and 2.0. |
| PdfViewerScreen.ClosestPage | paperstack/src/screens/PDFViewerScreen.js:322-335 | The page is in 1..n and its centre is nearest the viewer's, the first such page on a tie. With no pages it is 1. |
| PdfViewerScreen.DoubleTapScroll | paperstack/src/screens/PDFViewerScreen.js:376-381 | Each offset is at least zero and at least the one that centres the tapped point, and it is one of those two. |
| PdfViewerScreen.PdfViewer.constructor | paperstack/src/screens/PDFViewerScreen.js:234-240 | Page 1 of 0 pages at scale 1.0, with no tap yet. |
| PdfViewerScreen.PdfViewer.Loaded | paperstack/src/screens/PDFViewerScreen.js:254-278 | The page count is known, and the page information is posted twice. |
| PdfViewerScreen.PdfViewer.SetZoomLevel | paperstack/src/screens/PDFViewerScreen.js:386-415 | The scale becomes the clamped request. A zoom change is posted exactly when it differs from the old scale, and the scale stays in bounds. |
| PdfViewerScreen.PdfViewer.ZoomIn | paperstack/src/screens/PDFViewerScreen.js:446-448 | The scale becomes the clamped step up. Below 3.0 it grows and a zoom change is posted; at 3.0 nothing changes and nothing is posted. Page, taps and scroll position are untouched. |
| PdfViewerScreen.PdfViewer.ZoomOut | paperstack/src/screens/PDFViewerScreen.js:450-452 | The scale becomes the clamped step down. Above 0.5 it shrinks and a zoom change is posted; at 0.5 nothing changes and nothing is posted. Page, taps and scroll position are untouched. |
| PdfViewerScreen.PdfViewer.HandleDoubleTap | paperstack/src/screens/PDFViewerScreen.js:371-384 | The scale toggles and a zoom change is always posted. The scroll target centres the tapped point and is never negative. |
| PdfViewerScreen.PdfViewer.HandleTapEnd | paperstack/src/screens/PDFViewerScreen.js:429-442 | It is ignored while fingers remain. Otherwise a tap strictly between 0 and 300 ms after the last one toggles the scale, posts the zoom change and scrolls to the tapped point; any other tap changes only the last tap time, which becomes now. |
| PdfViewerScreen.PdfViewer.HandleScroll | paperstack/src/screens/PDFViewerScreen.js:317-341 | The nearest page becomes current, the first one on a tie. Page information is posted exactly when the page changed, and the scale and scroll position are untouched. |
| PdfViewerScreen.Round | paperstack/src/screens/PDFViewerScreen.js:73 | `Math.round` gives the integer within one half of the value, with halves rounding up. |
| PdfViewerScreen.ZoomPercentInRange | paperstack/src/screens/PDFViewerScreen.js:73 | Every scale the script can report shows as 50 to 300 percent. |
| PdfViewerScreen.ZoomPercentOfSteps | paperstack/src/screens/PDFViewerScreen.js:73 | k zoom steps of 0.25 show as exactly 25·k percent. |
| PdfViewerScreen.PdfViewerHost.constructor | paperstack/src/screens/PDFViewerScreen.js:15-17 | The host starts at page 1 of 0 pages, at 100 percent. |
| PdfViewerScreen.PdfViewerHost.HandleMessage | paperstack/src/screens/PDFViewerScreen.js:67-75 | A page change copies the page and page count. A zoom change sets the rounded percentage, and nothing else changes. |

## Findings

| source | as written | input that shows it | evidently intended | confidence | as-written member | corrected member |
|---|---|---|---|---|---|---|
| paperstack/src/screens/AddPaperScreen.js:104 | The family-name request's address reads `nameParts`, a `const` declared only in the blocks at lines 50 and 66. Building it throws a `ReferenceError`, which the CrossRef `catch` at line 151 swallows. The family-name request is never made, and lines 107-127 never run. | An author search with no exact match and one family-name match: no CrossRef result. | After the exact matches, search by family name and append the works whose DOI is new (the comment at line 101 and lines 112-125). | high; not executed | AddPaperScreen.CrossRefResultsAsWritten | AddPaperScreen.CrossRefResults |
| paperstack/src/screens/VerificationScreen.js:64-70 | The interval is started once on mount (lines 19-31), and clears itself when the countdown reaches zero. The resend button is enabled only at zero, so a successful resend runs after the interval was cleared. `setTimeLeft(300)` then sets five minutes that never count down, and the button stays disabled for good. | A resend pressed at 0:00 that succeeds: the screen shows 5:00 from then on. | A resend starts five more minutes of countdown, after which the code can be re-sent again. | medium; not executed | VerificationScreen.ResendAsWritten | VerificationScreen.Resend |

The rest of the model uses the corrected search:
- `SearchPapers` gets its CrossRef part from `CrossRefResults` and `CrossRefRequests`.
- `AuthorSearchAsWritten` and `AuthorSearchLosesFamilyMatch` relate the two versions.

The screen's resend uses the corrected countdown:
- `HandleResendCode` restarts it with `Resend`.
- `ResendFreezesCountdown` and `ResendRestartsCountdown` relate the two versions.

A second scoping error is modelled as written.
- Line 195 reads `index`, which is declared nowhere. An arXiv entry without `<id>` therefore aborts the entry loop with a `ReferenceError`, reported as "Search Error"; the entries before it keep their results.
- It is not a finding here because the code does not show which index was meant.
- The error's message is the JavaScript engine's (Hermes's is used, V8's is shown alongside); either way the alert is "Search Error".

## Left out

- HTTP and the network. CrossRef and arXiv answers, the 15-second `Promise.race` timeout, back-off sleeping and the axios client are not modelled. Fetch outcomes are parameters (`CrossRefFetch`, `Attempt`), and the waits are returned as numbers.
- Spring collaborators. `AuthenticationManager`'s outcome and the JWT token (absent when the provider throws) are parameters, password encoding is a function parameter, and `SecurityContextHolder` is not modelled. Bean validation's `@Email` check is a predicate parameter, and a failed `@Valid` body is the framework's 400 response.
- The mail text and the mail sender in EmailService.java: a sent mail is recorded as its recipient and code.
- Clocks and randomness. `LocalDateTime.now()` is an instant in seconds, `Random.nextInt(10)` gives six draws, and `Date.now()` and `new Date().toISOString()` are parameters. The two separate `Date.now()` calls in each add-paper handler are two parameters.
- JPA behaviour that is not visible:
  - The `Otp` entity's constructor is not visible, so a new row is taken to be unused.
  - When several rows match, `Optional` returns the first in table order in the model.
- OtpRepository.FindValidOtp: the first matching row is chosen, where Spring Data would report several matches as an error.
- The JSON text of the key-value store. An item is kept as the value that was serialized, and JSON values are modelled only as far as truthiness and key presence matter (`Json`). Numbers are integers.
- Device and OS services: the file system, document and image pickers, media-library permission, `Linking` and sharing. Their outcomes are parameters (`Transfer`, `granted`, `picked`).
- Alerts are modelled only where they decide what happens next: the form checks (sign-up, login, empty title) and the search's alert titles. These alerts and navigations are not modelled:
  - SignUpScreen.js:66, the sign-up failure alert.
  - LoginScreen.js:52 and 56, the login success and failure alerts, and the navigation to the main tabs after a login.
  - VerificationScreen.js:56-60, the verification success alert with its navigation, and the failure alert.
  - VerificationScreen.js:71-73, the resend alerts.
  - AccountScreen.js:54 and 57, the save alerts.
  - The add-paper screen's success and download-failure alerts.
- Each async handler runs as one step, with no interleaving at its `await`s. So the `isResending` guard of `HandleResendCode` is reached only from a state in which a resend is already in flight, which no sequence of the modelled operations produces.
- Screens and components that only present or route: Header.js, AuthInput.js, MoreScreen.js, ProfileScreen.js, AppNavigator.js and the style sheets.
- paperstack/src/screens/LoginScreen.js is an unrouted duplicate of the login screen under `Auth/`, and is not part of this model.
- `handleDoiLookup` and `handlePickPDF` on the add-paper screen are not part of this model.
- The form's `tags` field is never read when a paper is submitted.
- PDF rendering: pdf.js, the canvas and DOM layout, `getBoundingClientRect` and the pinch-zoom ratio. Page centres are parameters of the scroll handler. Scales are exact reals, not floating point.
- The regular expressions that pull an arXiv entry's id, title, authors and date, the `&lt;`/`&gt;` unescaping, and `new Date(published).getFullYear()`. These are one extraction function parameter (`ArxivFields`).
- `encodeURIComponent` is a function parameter. Strings are sequences of Unicode scalar values rather than UTF-16 code units.
- Interval scheduling on the verification screen. One tick is one method call, and the interval's clearing is the `timerRunning` flag.
- The verify-otp answer of the backend carries no token. The client's `response.data.token` is a parameter that is usually absent.
- Exceptions thrown by the store itself (`getItem`/`setItem` failing) are not modelled.
- Exceptions from the backend's repositories and mail sender are not modelled; only the token provider's is. So:
  - AuthController.AuthController.AuthenticateUser: a `userRepository.existsByEmail` that throws inside the login `try` (AuthController.java:80) would give 500 "An error occurred during login". The model's existence check never fails.
  - AuthController.AuthController.RegisterUser: a `sendVerificationEmail` that throws (AuthController.java:56) does so after the code was saved. The client gets the framework's error response, and the code stays stored but is never mailed. The model's mail sender never fails.
  - The OTP and user tables' `save` never fails in the model.
