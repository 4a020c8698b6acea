# Civic-issue reporting app — a Dafny model

The app lets residents report local problems (potholes, water, power,
sanitation) with a photo and a location on campus; other users vote on and
report abusive posts; administrators move reports through
pending → in-progress → resolved and moderate flagged posts. This project
models, one Dafny module per source file, the logic of:

- the Express/Mongoose backend: the `Post` and `User` schemas with their
  validators, defaults and pre-save hooks (`PostSchema`, `UserSchema`,
  `AfterImage`, `LifecycleTimestamps`), the authentication middleware
  (`Access`), the post routes (listing, creation, status changes, deletion,
  up/down votes, abuse reports, the report threshold — `PostRoutes`), the
  moderation routes (`AdminRoutes`), registration, duplicate checks, login
  and the Aadhar cleanup (`AuthRoutes`, `UserRoutes`, `UserValidation`);
- the React Native client: the campus geofence (`Geofence`), the report
  form (`CreatePostScreen`), the e-mail check and the sign-up and sign-in
  forms (`EmailSyntax`, `SignUpScreen`, `SignInScreen`), the optimistic
  voting and report dialog of a post (`PostDetailsScreen`), the home feed's
  search, filters, ordering, date label and status notifications
  (`HomeScreen`), the user's own updates (`UpdateScreen`) and the status
  timeline (`StatusUpdateScreen`);
- the React admin panel: the dashboard counters (`Dashboard`), the reports
  page with its period filter and charts (`ReportsPage`) and the resolved
  reports page (`ResolvedPage`).

`Wrappers`, `Text`, `Seqs` and `Sorting` hold the shared vocabulary: an
`Option` type, the JavaScript string operations the code uses
(`toLowerCase`, `trim`, `split`, `join`, `includes`, white-space removal),
list operations (`findIndex`, `splice`, `filter`) and the stable sort that
`Array.prototype.sort` performs with a comparator.

A route handler is a function from the store, the acting user and the
request to a reply and the new store; the database is a sequence of
documents with unique ids. Where the source updates state step by step —
the vote handlers' `splice`/`push`, the Aadhar cleanup loop, the
notification effect, the screens' state — the model is a class whose
methods are proved against the functions that specify them.

## Model

| member | source | states |
|---|---|---|
| Access.EnsureAuthenticated | backend/middleware/auth.js:4-12 | the route runs exactly for an authenticated request; any other request gets 401 |
| Access.EnsureAdmin | backend/middleware/auth.js:15-25 | the route runs iff authenticated and role "admin"; unauthenticated gets 401 before any role check; an authenticated non-admin gets 403 |
| Access.AdminImpliesAuthenticated | backend/middleware/auth.js:4-25 | whatever passes `ensureAdmin` passes `ensureAuthenticated`, and a request refused by the latter gets 401 from the former |
| AdminRoutes.FlaggedPosts | backend/routes/adminRoutes.js:61 | the query keeps exactly the posts with at least five reports |
| AdminRoutes.ReportedPostsContents | backend/routes/adminRoutes.js:59-69 | the queue holds the flagged posts (as a multiset, so each exactly once per occurrence) and nothing else, ordered by report count non-increasing, and `total` equals its length |
| AdminRoutes.AdminDeleteOutcome | backend/routes/adminRoutes.js:77-96 | an empty id gives 400, an unknown one 404, success iff admin with a known id; on success exactly that post is gone and the store invariant holds; every failure leaves the collection unchanged |
| AdminRoutes.ClearReportsOutcome | backend/routes/adminRoutes.js:99-116 | 404 for an unknown post; on success that post's `reports` is empty and `reportCount` 0, every other field and every other post unchanged, and the post leaves the queue |
| AdminRoutes.ClearReportsIdempotent | backend/routes/adminRoutes.js:101-105 | clearing twice leaves the collection as clearing once |
| AdminRoutes.AdminStats | backend/routes/adminRoutes.js:119-134 | admins get the number of posts and the number of users; everyone else is refused |
| AdminRoutes.ModerationRequiresAdmin | backend/routes/adminRoutes.js:59-119 | every moderation route answers 401 (unauthenticated) or 403 (non-admin) to a non-admin and leaves the collection alone |
| PostSchema.StatusOrDefault | backend/models/Post.js:40-44 | a given status is kept, a missing one becomes "pending", so a status from the enumeration or none yields one in the enumeration |
| PostSchema.VotesValidatorAcceptsDistinct | backend/models/Post.js:62-84 | the set-size validator accepts a vote list iff it has no duplicate ids |
| PostSchema.NewDocumentConsistent | backend/models/Post.js:54-105 | a new document has empty vote and report lists, `reportCount == |reports| == 0`, passes both vote validators, and gets status "pending" when none is given |
| PostSchema.DefaultVotes | backend/models/Post.js:124-128 | the pre-save hook turns a missing vote list into `[]` and keeps a present one |
| PostSchema.DefaultVotesKeepsValid | backend/models/Post.js:124-128 | the hook's result passes the vote validator when the given list was duplicate-free, and running it again changes nothing |
| AfterImage.ProofGuard | backend/models/afterimg.js:62-69 | the hook refuses iff `afterImage` is truthy and status is not "resolved" |
| AfterImage.Save | backend/models/afterimg.js:5-69 | a document is stored iff it validates and has no after image or is resolved |
| AfterImage.NoProofAlwaysSaves | backend/models/afterimg.js:63 | a valid document without an after image saves whatever its status |
| AfterImage.ResolvedWithProofSaves | backend/models/afterimg.js:63-68 | a valid resolved document with an after image saves |
| AfterImage.FreshWithProofRejected | backend/models/afterimg.js:26-69 | a new document that gives no status but carries an after image is refused, by the hook's message when it otherwise validates |
| AfterImage.ImageRequirements | backend/models/afterimg.js:7-8 | no before image means no save; dropping the after image never breaks validation |
| LifecycleTimestamps.NewTracked | FYsample/server/models/Post.js:3-13 | a new document is "pending" when no status is given, `createdAt` is now and both timestamps are absent |
| LifecycleTimestamps.UpdateWritesOnly | FYsample/server/routes/posts.js:4-10 | the status is written; each timestamp is written iff truthy in the request and kept otherwise; id and creation time never change |
| LifecycleTimestamps.UpdateStatusOutcome | FYsample/server/routes/posts.js:1-22 | the document with the id becomes its update (`ApplyUpdate`) and the reply is that updated document; every other document is kept; an unknown id answers null and changes nothing; there is no authorisation or transition check |
| LifecycleTimestamps.ReopenKeepsResolvedAt | FYsample/server/routes/posts.js:9-16 | moving a resolved post to "pending" without `resolvedAt` keeps the old resolution time |
| PostRoutes.IndexOf | backend/routes/postRoutes.js:161-165 | the lookup finds the position of the document with the id, or -1 exactly when there is none |
| PostRoutes.VisiblePosts | backend/routes/postRoutes.js:35-37 | the query keeps exactly the posts an admin or their owner may see |
| PostRoutes.DisplayName | backend/routes/postRoutes.js:43-46 | the shown username is never empty and is the post's own when it has one |
| PostRoutes.ListPostsContents | backend/routes/postRoutes.js:30-54 | the listing holds exactly the visible posts, each with its display name, each as often as stored: same length and same multiset as the renamed visible posts; an admin's listing has every post |
| PostRoutes.ListPostsOrder | backend/routes/postRoutes.js:37-46 | the listing is newest first and every entry has a non-empty username |
| PostRoutes.ListPostsOwnOnly | backend/routes/postRoutes.js:35 | a non-admin never sees another user's post |
| PostRoutes.CreatePostOutcome | backend/routes/postRoutes.js:57-101 | 400 for a missing location or non-number coordinate; success iff required fields and category valid; the new post is pending, unvoted, unreported, takes the request's title, description, image, coordinates, address, category and tags, the creation time, the actor's username or "Anonymous User" for an empty one, and is appended; failure leaves the collection unchanged |
| PostRoutes.SetStatusOutcome | backend/routes/postRoutes.js:104-126 | a non-admin gets 403 before any lookup; an admin on an unknown id gets 404; otherwise only that post's `status` is replaced, by the given value unchecked |
| PostRoutes.RemoveKeepsInvariant | backend/routes/postRoutes.js:147 | removing one document removes exactly the documents with its id and keeps the store invariant |
| PostRoutes.DeletePostOutcome | backend/routes/postRoutes.js:129-153 | 404 for an unknown id; success iff admin or owner; on success exactly that post is gone; 403 and 404 leave the collection unchanged |
| PostRoutes.ToggleEffect | backend/routes/postRoutes.js:185-194 | toggling keeps a list duplicate-free, flips the user's membership, and leaves every other user's entries in order |
| PostRoutes.UpvoteEffect | backend/routes/postRoutes.js:175-194 | after an upvote the user's upvote is flipped and its downvote gone; lists stay duplicate-free and disjoint; others' entries keep their order |
| PostRoutes.DownvoteEffect | backend/routes/postRoutes.js:251-270 | the exact mirror of `UpvoteEffect` |
| PostRoutes.UpvoteTwiceRestores | backend/routes/postRoutes.js:176-194 | for a user who had not voted, two upvotes restore the lists |
| PostRoutes.UpvoteThenDownvote | backend/routes/postRoutes.js:176-270 | an upvote then a downvote leaves the user among the downvotes only |
| PostRoutes.VoteRouteOutcome | backend/routes/postRoutes.js:156-305 | 404 for an unknown post; a vote changes only that post's vote lists, keeping them duplicate-free and disjoint although the write skips validators |
| PostRoutes.VoteDocument.Upvote | backend/routes/postRoutes.js:175-194 | the in-place `splice`/`push` edits give exactly `CastUpvote` of the old lists |
| PostRoutes.VoteDocument.Downvote | backend/routes/postRoutes.js:251-270 | the in-place edits give exactly `CastDownvote` of the old lists |
| PostRoutes.FindIndex | backend/routes/postRoutes.js:176-187 | `findIndex` returns the first position holding the user, or -1 iff absent |
| PostRoutes.ReportPostOutcome | backend/routes/postRoutes.js:308-365 | no reason gives 400; unknown post 404; a repeat report 400; success iff the post exists with no report from this user, and then exactly one entry is appended and `reportCount` rises by one, keeping `reportCount == |reports|`; failures change nothing |
| PostRoutes.ReportTwiceRefused | backend/routes/postRoutes.js:320-349 | a user's second report on the same post is refused with "already reported" |
| PostRoutes.ReportsStatus | backend/routes/postRoutes.js:409-429 | the post's count and reports, threshold 5, and `exceedsThreshold` iff `reportCount >= 5`; 404 for an unknown post |
| PostRoutes.CategoriesMatchSchema | backend/routes/postRoutes.js:368-406 | the category names offered are exactly those the schema accepts |
| UserSchema.CleanAadharProperties | backend/models/User.js:52-54 | the pre-save cleaning leaves no white space, is idempotent, leaves a valid 12-digit value unchanged, and its final `trim` adds nothing to the removal of white space |
| UserSchema.NormalizeEmailProperties | backend/models/User.js:28-33 | a stored email has no white space at either end and no upper-case letter, and normalising it again changes nothing |
| UserSchema.Construct | backend/models/User.js:38-42 | a document built without a role gets role "user" |
| UserSchema.PreSaveCleaningInert | backend/models/User.js:17-54 | validation runs first, so on a valid document the pre-save cleaning changes nothing |
| UserSchema.Conflict | backend/models/User.js:79-92 | the first unique index (Aadhar, email, username) the new document would violate, or none exactly when it violates none |
| UserSchema.Save | backend/models/User.js:6-92 | a new document is stored iff it passes the required, Aadhar-pattern and role-enumeration checks and violates no unique index, and it is stored unchanged |
| UserSchema.SaveKeepsConsistent | backend/models/User.js:6-92 | a successful insert keeps every stored user valid and the three fields unique |
| AuthRoutes.DuplicateKeyMessage | backend/routes/authRoutes.js:99-108 | the message is the field with its first letter upper-cased followed by " already exists" |
| AuthRoutes.AadharKeyMessage | backend/routes/authRoutes.js:101-106 | an Aadhar key error reads "AadharNumber already exists" |
| AuthRoutes.EmailKeyMessage | backend/routes/authRoutes.js:101-106 | an email key error reads "Email already exists" |
| AuthRoutes.UsernameKeyMessage | backend/routes/authRoutes.js:101-106 | a username key error reads "Username already exists" |
| AuthRoutes.RegisterOutcome | backend/routes/authRoutes.js:6-117 | a missing or non-12-digit Aadhar gives 400 first; then the duplicate checks in the order Aadhar, email, username with their messages; success iff all pass and the required fields are present; the user gets the default role and the Aadhar as submitted; failures store nothing; the duplicate-key reply never occurs |
| AuthRoutes.DuplicateKeyNotPrecheck | backend/routes/authRoutes.js:19-108 | no duplicate-key message coincides with a pre-check message |
| AuthRoutes.RegisterTwiceRefused | backend/routes/authRoutes.js:33-50 | repeating a successful registration is refused by the Aadhar check |
| AuthRoutes.CleanupAadhar | backend/routes/authRoutes.js:178-199 | the loop over the loaded users leaves exactly the collection and answer of `CleanupFrom` |
| AuthRoutes.CleanupSkips | backend/routes/authRoutes.js:184-186 | a user without an Aadhar, or one that cleaning would not change, is skipped |
| AuthRoutes.CleanupRefused | backend/routes/authRoutes.js:186-198 | a refused save ends the run with an error, keeping the saves already made |
| AuthRoutes.CleanupCleans | backend/routes/authRoutes.js:186-190 | a user whose Aadhar changes is saved cleaned and counted |
| AuthRoutes.CleanupCounts | backend/routes/authRoutes.js:181-194 | a completed run counts exactly the users whose Aadhar changed and leaves none that still needs cleaning |
| AuthRoutes.CleanupNothingToDo | backend/routes/authRoutes.js:183-194 | on a collection where nothing needs cleaning the route changes nothing and reports zero |
| AuthRoutes.CleanupSecondRunZero | backend/routes/authRoutes.js:178-194 | a second run after a completed one changes nothing and reports 0 |
| AuthRoutes.CleanupTouchesOnlyAadhar | backend/routes/authRoutes.js:183-192 | whatever the outcome, each user is untouched or has only its Aadhar replaced by the cleaned form; users without an Aadhar are never touched |
| UserRoutes.DuplicateUserMessage | backend/routes/userRoutes.js:93-98 | the message is "A user with this ", the field, then " already exists." |
| UserRoutes.StoredRole | backend/routes/userRoutes.js:83 | the stored role is the body's when truthy, else "user" |
| UserRoutes.RegisterUserRefusals | backend/routes/userRoutes.js:64-111 | the order of refusals: a falsy field gives "All fields are required."; then a validation error; then the first violated index named in the message; each is a 400 that stores nothing |
| UserRoutes.RegisterUserStores | backend/routes/userRoutes.js:77-90 | a complete request is stored iff the document validates and violates no index; storing keeps the collection consistent |
| UserRoutes.RoleFromBody | backend/routes/userRoutes.js:83 | the stored role comes from the body, so a client can register as "admin" |
| UserRoutes.FindBy | backend/routes/userRoutes.js:14 | `findOne` finds a user holding the value, or none exactly when no user does |
| UserRoutes.Login | backend/routes/userRoutes.js:9-31 | every refusal is a 401; "No user with this email found." exactly for an unknown address; a success returns the stored user with that address whose password matches |
| UserRoutes.LoginIgnoresCaseAndSpaces | backend/routes/userRoutes.js:14 | addresses differing only in case or surrounding blanks log in the same user |
| UserRoutes.LoginWrongPassword | backend/routes/userRoutes.js:21-24 | a wrong password for a registered address gives "Incorrect password." |
| UserRoutes.LoginSucceeds | backend/routes/userRoutes.js:14-25 | a registered address with the right password logs that user in |
| UserRoutes.ProfilePage | backend/routes/userRoutes.js:148-158 | 401 without a session; otherwise exactly username, phone number, Aadhar, email and role |
| UserRoutes.ProfileHidesSecrets | backend/routes/userRoutes.js:148-158 | the profile never depends on the password hash or the id |
| UserRoutes.AdminPage | backend/routes/userRoutes.js:161-168 | 401 without a session, 403 for a non-admin, the welcome message iff the role is "admin" |
| UserRoutes.SelfAssignedAdminPasses | backend/routes/userRoutes.js:83-168 | a client that registered with role "admin" passes the admin page |
| UserValidation.FindFirst | backend/utils/userValidation.js:4-6 | the query finds the first user matching any pair through the setters, or none exactly when no user matches |
| UserValidation.FirstEqualField | backend/utils/userValidation.js:9-19 | the scan returns the first pair, in entry order, whose value strictly equals the user's own, or none exactly when no pair does |
| UserValidation.CheckExistingUser | backend/utils/userValidation.js:3-23 | no match gives not-exists; a reported field is held by a user, strictly equal in the first user the lookup finds (so a found user holding no field strictly gives not-exists), and its message is the capitalised field name followed by " already registered"; an empty field list is a query error |
| UserValidation.CheckFindsNormalisedValues | backend/utils/userValidation.js:3-23 | when the values are already in stored form, a field is reported iff some user holds one of them |
| UserValidation.CheckReportsFirstField | backend/utils/userValidation.js:9-10 | the reported field is the first pair in entry order that the found user holds exactly |
| UserValidation.CaseVariantReportedAbsent | backend/utils/userValidation.js:4-22 | an address that differs from a stored one only in case or blanks is found by the query yet reported as not existing |
| Geofence.IsPointInPolygon | FYsample/components/CreatePostScreen.js:55-72 | the loop returns the parity of the number of edges (previous vertex to vertex `i`, cyclically) that straddle the point's longitude and meet it beyond the point's latitude |
| Geofence.LevelEdgeNeverCrosses | FYsample/components/CreatePostScreen.js:66-67 | an edge whose ends share a longitude never counts, so the division is never by zero and the zero-length closing edge is ignored |
| Geofence.EdgeSymmetric | FYsample/components/CreatePostScreen.js:66-67 | an edge crosses in one direction exactly when it crosses in the other |
| Geofence.DegeneratePolygonOutside | FYsample/components/CreatePostScreen.js:55-72 | a polygon of fewer than three vertices (including none) contains no point |
| Geofence.OutsideBoundingBox | FYsample/components/CreatePostScreen.js:60-71 | a point whose longitude is at least every vertex's, or below every vertex's, or whose latitude is at least every vertex's, is outside |
| Geofence.ClosingVertexIrrelevant | FYsample/components/CreatePostScreen.js:31-72 | repeating the first vertex at the end, as the campus constant does, does not change the answer |
| Geofence.CampusAdmitsCentre | FYsample/components/CreatePostScreen.js:31-51 | a point in the middle of the campus outline is admitted |
| Geofence.CampusRefusesDistantPoint | FYsample/components/CreatePostScreen.js:31-51 | a point a few kilometres away is refused |
| CreatePostScreen.NonEmpty | FYsample/components/CreatePostScreen.js:169-177 | `filter(Boolean)` keeps exactly the non-empty address parts |
| CreatePostScreen.FormatAddressShape | FYsample/components/CreatePostScreen.js:169-177 | no geocode gives "Address not available"; otherwise the text is empty iff every part is, and with comma-free parts it has one comma-separated piece per non-empty part |
| CreatePostScreen.SplitTags | FYsample/components/CreatePostScreen.js:228 | the tags are the comma-separated pieces of the field, each trimmed |
| CreatePostScreen.SplitTagsShape | FYsample/components/CreatePostScreen.js:228 | there are commas + 1 tags, an empty field gives `[""]`, and no tag holds a comma or has white space at either end |
| CreatePostScreen.HandleSubmitOrder | FYsample/components/CreatePostScreen.js:200-233 | rejects in this order: no location, off campus, empty title or description; sends iff all pass, with the title, description, category, image and location as entered and the split tags; the image never affects the decision |
| CreatePostScreen.LocatedIsOnCampus | FYsample/components/CreatePostScreen.js:139-215 | a location obtained through the button always passes the submit handler's campus check |
| EmailSyntax.ValidEmailMatchesPattern | FYsample/components/SignUpScreen.js:23-26 | the direct scan accepts exactly the strings of the form local "@" host "." top with three non-empty runs free of white space and "@" |
| EmailSyntax.AcceptsPlainAddress | FYsample/components/SignUpScreen.js:23-26 | "a@b.c" passes |
| EmailSyntax.RefusesMissingDot | FYsample/components/SignUpScreen.js:23-26 | an address without a dot after the "@" is refused |
| EmailSyntax.RefusesSecondAt | FYsample/components/SignUpScreen.js:23-26 | an address with a second "@" is refused |
| EmailSyntax.RefusesSpace | FYsample/components/SignInScreen.js:18-21 | an address with a space is refused |
| SignUpScreen.SignUpDecision | FYsample/components/SignUpScreen.js:28-55 | any empty field alerts "Please fill in all fields" first; then an invalid email sets the email error; only otherwise is `register` called, always with role "user" and the fields as typed; navigation to sign-in iff the answer succeeds |
| SignUpScreen.CapInput | FYsample/components/SignUpScreen.js:83-93 | a capped input keeps the first `max` characters and nothing else |
| SignUpScreen.CapsDoNotCheckDigits | FYsample/components/SignUpScreen.js:83-95 | the Aadhar and phone inputs accept letters; only their length is capped |
| SignUpScreen.SignUpForm.EditEmail | FYsample/components/SignUpScreen.js:104-107 | editing the email clears the error and changes no other field |
| SignUpScreen.SignUpForm.HandleSignUp | FYsample/components/SignUpScreen.js:28-55 | the handler does what `SignUpDecision` says, leaves the fields alone, and the email error is set exactly when the address was refused |
| SignUpScreen.FormRegistersPlainUsers | FYsample/components/SignUpScreen.js:41-48 | an account made through the form is stored with role "user" |
| SignInScreen.SignInDecision | FYsample/components/SignInScreen.js:23-44 | an empty field alerts first; then an invalid email alerts; `login` is called iff both pass, with the inputs as typed; a failure alerts a non-empty message |
| SignInScreen.NavigatesOnlyOnSuccess | FYsample/components/SignInScreen.js:39-43 | the screen moves to the main tabs iff the inputs pass and login succeeds |
| SignInScreen.ShowInlineError | FYsample/components/SignInScreen.js:60-70 | the inline error is never shown for an empty email |
| SignInScreen.InlineErrorAgreesWithHandler | FYsample/components/SignInScreen.js:29-70 | with a password typed, the invalid-address alert comes exactly when the inline error is shown |
| PostDetailsScreen.LocalUpvoteEffect | FYsample/components/PostDetailsScreen.js:47-75 | an existing upvote is withdrawn locally with no server call; otherwise any downvote is withdrawn, the server is called, and the voter is appended iff it accepts; no other voter's entries change |
| PostDetailsScreen.LocalDownvoteEffect | FYsample/components/PostDetailsScreen.js:77-105 | the mirror of `LocalUpvoteEffect` with the lists swapped |
| PostDetailsScreen.FailedUpvoteLeavesNeither | FYsample/components/PostDetailsScreen.js:59-73 | a refused upvote of a downvoter leaves the voter in neither list |
| PostDetailsScreen.SentUpvoteMatchesServer | FYsample/components/PostDetailsScreen.js:57-70 | when the press is sent and accepted, the screen shows what the server stored |
| PostDetailsScreen.UnvoteNeverReachesServer | FYsample/components/PostDetailsScreen.js:48-56 | an upvoter's press drops the upvote on screen without telling the server, whose own toggle would differ; a second press is then sent and shows the upvote again |
| PostDetailsScreen.CorrectedUpvote | FYsample/components/PostDetailsScreen.js:47-75 | the intended handler changes nothing on a refused press |
| PostDetailsScreen.CorrectedVotesWellFormed | FYsample/components/PostDetailsScreen.js:47-105 | the intended handlers keep the lists duplicate-free and disjoint, and an accepted press flips the voter's vote |
| PostDetailsScreen.CorrectedMatchesServer | FYsample/components/PostDetailsScreen.js:47-105 | the intended handlers always show what the vote routes store |
| PostDetailsScreen.ReasonToSend | FYsample/components/PostDetailsScreen.js:136-165 | a blank reason is never sent; a sent reason is trimmed and non-empty |
| PostDetailsScreen.SentReasonAccepted | FYsample/components/PostDetailsScreen.js:161-165 | a reason the screen sends is never refused by the report route as missing, and trimming it again changes nothing |
| PostDetailsScreen.RecentReasons | FYsample/components/PostDetailsScreen.js:184-187 | at most the last three reasons are listed, in order |
| PostDetailsScreen.RecentReasonsSlide | FYsample/components/PostDetailsScreen.js:184-187 | a new report pushes the oldest of three listed reasons out |
| PostDetailsScreen.PostView.HandleUpvote | FYsample/components/PostDetailsScreen.js:47-75 | the handler's state updates give exactly `LocalUpvote` of the shown lists |
| PostDetailsScreen.PostView.HandleDownvote | FYsample/components/PostDetailsScreen.js:77-105 | the handler's state updates give exactly `LocalDownvote` of the shown lists |
| PostDetailsScreen.PostView.SubmitReport | FYsample/components/PostDetailsScreen.js:160-173 | a blank reason leaves the box as it is; otherwise the trimmed reason is sent and the box is closed and emptied |
| HomeScreen.MatchesSearchMeaning | FYsample/components/HomeScreen.js:283-294 | with a query, a post matches exactly when the lower-cased query is a substring of the lower-cased title or description, or of a lower-cased tag after the query's first '#' is dropped; without one, every post matches |
| HomeScreen.WithinTimeFrame | FYsample/components/HomeScreen.js:345-360 | "week", "30days" and "90days" admit a post exactly when fewer than 8, 31 or 91 whole days have passed (the floor of the elapsed days is at most 7, 30 or 90); any other key admits every post |
| HomeScreen.FuturePostsPass | FYsample/components/HomeScreen.js:345-360 | a post dated after now passes every time frame |
| HomeScreen.FilterPosts | FYsample/components/HomeScreen.js:280-321 | a post is kept exactly when it passes the search, category, status, time-frame and resolved-with-proof tests; the list never grows |
| HomeScreen.FilteredPostsContents | FYsample/components/HomeScreen.js:279-342 | the displayed list holds exactly the passing posts, as a permutation of the filtered feed, ordered by upvote count, by report count with the newest first among ties, or newest first, as the sort option asks |
| HomeScreen.ToggleValue | FYsample/components/HomeScreen.js:562-567 | choosing the current value clears the filter; choosing any other value sets it |
| HomeScreen.HandleFilterChange | FYsample/components/HomeScreen.js:562-567 | only the chosen filter changes, toggled against the chosen value; the resolved switch is kept |
| HomeScreen.FilterChangeTwice | FYsample/components/HomeScreen.js:562-567 | pressing the same option twice restores an unset filter or one already at that value, and clears one set to a different value |
| HomeScreen.ToggleShowResolved | FYsample/components/HomeScreen.js:855-858 | the resolved switch passes the negated value, so it always flips and nothing else changes |
| HomeScreen.ClearedFiltersShowAll | FYsample/components/HomeScreen.js:570-577 | after clearing the filters, with no query and every category, the whole feed is shown newest first |
| HomeScreen.Hour12 | FYsample/components/HomeScreen.js:169 | the twelve-hour clock value is between 1 and 12 and agrees with the hour modulo 12 |
| HomeScreen.Meridiem | FYsample/components/HomeScreen.js:168 | the suffix is "PM" exactly from hour 12 on |
| HomeScreen.PadMinutes | FYsample/components/HomeScreen.js:170 | minutes are shown as two digits whose value is the minute |
| HomeScreen.FormatDate | FYsample/components/HomeScreen.js:150-172 | the label is the month's abbreviation, a space, the day of the month, ", ", the twelve-hour value, ":mm" and the AM/PM suffix; the day and hour digits read back as the day and `Hour12` of the hour |
| HomeScreen.OwnsAsWritten | FYsample/components/HomeScreen.js:84 | the comparison as written can succeed only when the post's author is a bare id, never a populated user |
| HomeScreen.Owns | FYsample/components/HomeScreen.js:84 | the intended ownership test: a signed-in user whose id is the author's id, populated or not |
| HomeScreen.DropPost | FYsample/components/HomeScreen.js:113-115 | exactly the notifications about other posts remain |
| HomeScreen.NoteStepLocal | FYsample/components/HomeScreen.js:79-125 | one post's step leaves the other posts' notifications alone and acts on its own post's notifications by themselves |
| HomeScreen.EffectPerPost | FYsample/components/HomeScreen.js:78-126 | on a feed with distinct ids, the effect leaves each post's notifications as that post's own step makes them |
| HomeScreen.StatusChangeReplacesNotes | FYsample/components/HomeScreen.js:98-119 | a post whose recorded status differs from its lower-cased current status ends with exactly one notification, about the new status |
| HomeScreen.NewReportNeverAnnounced | FYsample/components/HomeScreen.js:84-97 | as written, a new post whose author is populated gets no new notification, whoever is signed in |
| HomeScreen.OwnReportMissed | FYsample/components/HomeScreen.js:84 | the signed-in user's own new report, delivered by the feed fetch with its author populated, produces no notification |
| HomeScreen.CorrectedAnnouncesNewReport | FYsample/components/HomeScreen.js:84-97 | with the intended ownership test, the user's new report gets a "pending" notification in front of its earlier ones |
| HomeScreen.EffectRecordsStatuses | FYsample/components/HomeScreen.js:121-125 | every post's lower-cased status is recorded and the statuses of posts not in the feed are kept |
| HomeScreen.EffectQuietOnRerun | FYsample/components/HomeScreen.js:78-126 | once every post's current status is recorded, running the effect again adds no notification |
| HomeScreen.UnreadCount | FYsample/components/HomeScreen.js:142-144 | the unread count is at most the number of notifications and is zero exactly when all are read |
| HomeScreen.MarkedRead | FYsample/components/HomeScreen.js:146-148 | every notification is kept, in place, marked read |
| HomeScreen.MarkAllAsReadEffect | FYsample/components/HomeScreen.js:146-148 | marking all as read keeps the count of notifications and leaves none unread |
| HomeScreen.NotificationCentre.constructor | FYsample/components/HomeScreen.js:59-62 | the screen starts with no notifications and no recorded statuses |
| HomeScreen.NotificationCentre.OnPostsChanged | FYsample/components/HomeScreen.js:78-126 | the loop leaves the notifications and recorded statuses that the effect over the feed computes, every post read against the statuses recorded before the effect began |
| HomeScreen.NotificationCentre.MarkAllAsRead | FYsample/components/HomeScreen.js:146-148 | the notifications become their read copies and the recorded statuses are unchanged |
| UpdateScreen.SearchIgnoresTags | FYsample/components/UpdateScreen.js:49-52 | a post matches exactly when the lower-cased query is a substring of its lower-cased title or description (or there is no query); its tags never matter |
| UpdateScreen.WithinPeriod | FYsample/components/UpdateScreen.js:63-74 | "week", "month" and "3months" admit a post exactly when fewer than 8, 31 or 91 whole days have passed; any other key admits every post |
| UpdateScreen.HomeKeysIgnored | FYsample/components/UpdateScreen.js:68-73 | the home feed's key "30days" is unknown here and admits a post the home feed would refuse |
| UpdateScreen.FilterUpdates | FYsample/components/UpdateScreen.js:46-54 | a post is kept exactly when it passes the search, status and time-frame tests; the list never grows and is unchanged when every post passes |
| UpdateScreen.UpdatePostsContents | FYsample/components/UpdateScreen.js:45-61 | the list holds exactly the passing posts as a permutation of the filtered list; "newest" orders it newest first, and any other value keeps the order the posts came in |
| UpdateScreen.NoFiltersShowAll | FYsample/components/UpdateScreen.js:83-89 | after clearing the filters, with no query, the user's posts are shown exactly as they came |
| UpdateScreen.ChangeUpdateFilter | FYsample/components/UpdateScreen.js:76-81 | only the chosen filter changes, toggled against the chosen value |
| UpdateScreen.ChangeUpdateFilterTwice | FYsample/components/UpdateScreen.js:76-81 | choosing the same value twice restores a filter that was unset or already at that value |
| StatusUpdateScreen.GetStatusConfig | FYsample/components/StatusUpdateScreen.js:38-65 | the lower-cased status "in-progress" gives step 1, "resolved" step 2, and anything else, known or not, step 0 |
| StatusUpdateScreen.StatusConfigIgnoresCase | FYsample/components/StatusUpdateScreen.js:39 | the configuration depends only on the lower-cased status |
| StatusUpdateScreen.GetStatusMessage | FYsample/components/StatusUpdateScreen.js:67-78 | the in-progress and resolved statuses, in any case, get their own messages; every other status gets the registration message |
| StatusUpdateScreen.UnknownStatusMessage | FYsample/components/StatusUpdateScreen.js:76-77 | an unknown status reads exactly like a pending one |
| StatusUpdateScreen.FormatStamp | FYsample/components/StatusUpdateScreen.js:26-36 | a missing date renders as the empty string; a present one as the platform renders it |
| StatusUpdateScreen.Timeline | FYsample/components/StatusUpdateScreen.js:80-96 | three steps with the captions "Issue registered", "Admin investigating", "Issue resolved"; a step is active exactly up to the current step and takes the active colour, otherwise grey |
| StatusUpdateScreen.ActiveSteps | FYsample/components/StatusUpdateScreen.js:131-133 | exactly one more step than the current step index is active |
| StatusUpdateScreen.StepMessages | FYsample/components/StatusUpdateScreen.js:168-192 | the first step always shows the registration message; the second shows "Pending" exactly for a pending status and the in-progress message otherwise; the third shows "Pending" exactly for a pending or in-progress status and the resolved message otherwise |
| StatusUpdateScreen.UnknownStatusTimeline | FYsample/components/StatusUpdateScreen.js:131-192 | an unknown status lights only the first step, while the second and third steps show the in-progress and resolved messages |
| StatusUpdateScreen.ShowsProof | FYsample/components/StatusUpdateScreen.js:201-202 | the proof section is shown exactly when the status puts the report on its last step |
| Dashboard.Tally | admin/src/components/Dashboard.js:72-80 | one report raises the total by one (by two when its status is "total"), and raises the pending, in-progress or resolved counter by one exactly when its status names it ("inProgress" also reaches the in-progress counter) |
| Dashboard.WithStatus | admin/src/components/Dashboard.js:136 | exactly the reports whose status equals the chosen one remain |
| Dashboard.StatsCount | admin/src/components/Dashboard.js:70-84 | each counter equals the number of reports with its status; the total is the number of reports plus the number with status "total" |
| Dashboard.StatsAddUp | admin/src/components/Dashboard.js:70-84 | when every status is pending, in-progress or resolved, the total is the number of reports and the three counters add up to it |
| Dashboard.TotalStatusCountedTwice | admin/src/components/Dashboard.js:73-77 | a single report whose status is "total" makes the total 2 |
| Dashboard.ComputeStats | admin/src/components/Dashboard.js:70-84 | the loop over the reports yields the counters of the left-to-right reduction |
| Dashboard.DashboardPage.constructor | admin/src/components/Dashboard.js:27-35 | the page starts with no reports, zero counters and no error |
| Dashboard.DashboardPage.ApplyFetch | admin/src/components/Dashboard.js:44-92 | a fetch clears the error; received reports replace the list and, when there are any, the counters; a failure empties the list, keeps the counters and sets the error message |
| Dashboard.DashboardPage.CardClick | admin/src/components/Dashboard.js:124-145 | the "all" card opens every report titled "All Reports"; any other card opens exactly the reports with that status, titled with the capitalised status |
| Dashboard.CardMatchesCounter | admin/src/components/Dashboard.js:124-145 | with no report carrying the status "inProgress", each status card opens as many reports as its counter shows |
| ReportsPage.LeadingDigits | admin/src/pages/Reports.js:84 | the longest prefix of the text made of decimal digits |
| ReportsPage.ParseInt | admin/src/pages/Reports.js:84 | parsing gives no number exactly when the text is empty or does not start with a digit |
| ReportsPage.ParseIntOfNat | admin/src/pages/Reports.js:84 | parsing a number's decimal text gives back the number |
| ReportsPage.PeriodPosts | admin/src/pages/Reports.js:67-90 | exactly the reports in the chosen period remain, each as many times as it is listed; "all" keeps every report |
| ReportsPage.PeriodPostsAppend | admin/src/pages/Reports.js:67-90 | the filter keeps the reports in their order: filtering a concatenation is concatenating the filtered parts |
| ReportsPage.MonthKeySelects | admin/src/pages/Reports.js:79-86 | a key "year-month" splits and parses back to that year and month, and selects exactly the reports whose local year and month are those |
| ReportsPage.CountsOfMeaning | admin/src/pages/Reports.js:130-134 | the counts hold exactly the keys that occur, each with its number of occurrences |
| ReportsPage.CountKeys | admin/src/pages/Reports.js:151-154 | the loop over the keys yields the counts of the left-to-right reduction |
| ReportsPage.StatusKeys | admin/src/pages/Reports.js:131 | each report's status key is its status with the white space removed |
| ReportsPage.BarValues | admin/src/pages/Reports.js:136-143 | each bar shows the number of reports whose space-free status is its key, and 0 for a status no report has |
| ReportsPage.Distinct | admin/src/pages/Reports.js:165 | the chart's keys, without repetition, are exactly the keys that occur |
| ReportsPage.CountsSumToLength | admin/src/pages/Reports.js:151-154 | the counts over the distinct keys add up to the number of reports counted |
| ReportsPage.SliceFill | admin/src/pages/Reports.js:156-168 | a known category takes its own colour; any other takes the palette colour at its position modulo six; every fill is one of the six colours |
| ReportsPage.Slices | admin/src/pages/Reports.js:165-169 | one slice per distinct category, in the order the categories first appear, with its count and fill |
| ReportsPage.SliceTotalIsSum | admin/src/pages/Reports.js:165-169 | the slices' values add up to the counts over the categories |
| ReportsPage.SlicesNonEmpty | admin/src/pages/Reports.js:151-169 | every slice counts at least one report |
| ReportsPage.SlicePerCategory | admin/src/pages/Reports.js:151-169 | there is a slice for a category exactly when some shown report has it |
| ReportsPage.PieTotal | admin/src/pages/Reports.js:151-169 | the slices add up to the number of reports shown |
| ReportsPage.WithNewStatus | admin/src/pages/Reports.js:116-118 | the report with the id takes the new status; every other report is unchanged, in place |
| ReportsPage.ReportsView.constructor | admin/src/pages/Reports.js:15-23 | the page starts with empty lists, the "all" filter, no error and no open report |
| ReportsPage.ReportsView.LoadGiven | admin/src/pages/Reports.js:30-38 | reports handed over by a dashboard card fill both lists and nothing else changes |
| ReportsPage.ReportsView.ApplyFetch | admin/src/pages/Reports.js:40-65 | received reports fill both lists; a failure only sets the error message |
| ReportsPage.ReportsView.ApplyFilter | admin/src/pages/Reports.js:67-90 | the shown list becomes the reports of all reports in the period and the filter key is recorded; the full list is unchanged |
| ReportsPage.ReportsView.ChangeStatus | admin/src/pages/Reports.js:97-125 | an accepted update changes the report's status in the shown list and in the open report only; a refused one changes nothing |
| ReportsPage.ReportsView.RefilterForgetsStatusChange | admin/src/pages/Reports.js:78-119 | an accepted status change followed by choosing "all" shows the loaded list again, without the change, which never reached `allPosts`; the open report keeps the new status |
| ResolvedPage.ShowsReadMore | admin/src/pages/Resolved.js:181 | the read-more link appears exactly for a description of at least 151 characters |
| ResolvedPage.ToggleId | admin/src/pages/Resolved.js:117-126 | the id is in the new set exactly when it was not in the old one; every other id is kept as it was |
| ResolvedPage.ToggleTwiceRestores | admin/src/pages/Resolved.js:117-126 | toggling the same report twice restores the set of expanded descriptions |
| ResolvedPage.WithoutId | admin/src/pages/Resolved.js:96 | exactly the reports with a different id remain |
| ResolvedPage.WithoutIdLength | admin/src/pages/Resolved.js:96 | removal drops exactly as many reports as carry the id |
| ResolvedPage.ResolvedView.constructor | admin/src/pages/Resolved.js:11-18 | the page starts with no reports, no error, the dialog closed, nothing selected and nothing expanded |
| ResolvedPage.ResolvedView.ApplyFetch | admin/src/pages/Resolved.js:20-44 | received reports are narrowed to those whose status is exactly "resolved"; a failure sets the error and keeps the list |
| ResolvedPage.ResolvedView.ToggleDescription | admin/src/pages/Resolved.js:117-126 | the expanded set becomes its toggle at the id and nothing else changes |
| ResolvedPage.ResolvedView.HandleDelete | admin/src/pages/Resolved.js:76-79 | the report is selected and the confirmation opened; nothing else changes |
| ResolvedPage.ResolvedView.ConfirmDelete | admin/src/pages/Resolved.js:81-103 | an accepted delete drops the selected report's id from the list, closes the dialog and clears the selection; a refused one changes nothing |
| Sorting.SortDescSorted | FYsample/components/HomeScreen.js:323-341 | the comparator sort leaves the list in non-increasing order of its key |
| Sorting.SortDescPermutes | FYsample/components/HomeScreen.js:323-341 | the sort keeps every element, each as often as before |
| Sorting.SortDescMembers | FYsample/components/HomeScreen.js:323-341 | the sorted list holds exactly the elements of the input |
| Sorting.SortDescAllTied | FYsample/components/UpdateScreen.js:55-60 | a comparator under which every pair ties leaves the order as it was, as the stable sort does |
| Text.RemoveFirstChar | FYsample/components/HomeScreen.js:292 | replacing "#" by nothing removes exactly the first "#" (the text before it and the text after it are kept), and leaves a text without "#" as it is |
| Text.Capitalize | admin/src/components/Dashboard.js:141 | the first character is upper-cased and the rest kept, length unchanged |
| LifecycleTimestamps.Find | FYsample/server/routes/posts.js:12-16 | the lookup by id gives a position holding the id, or -1 exactly when no stored post has it |
| PostRoutes.VoteDocument.constructor | backend/routes/postRoutes.js:161-165 | the loaded document holds the stored vote lists |
| UserRoutes.AadharUserMessage | backend/routes/userRoutes.js:93-98 | a duplicate Aadhar number answers "A user with this aadharNumber already exists." |
| UserRoutes.EmailUserMessage | backend/routes/userRoutes.js:93-98 | a duplicate email answers "A user with this email already exists." |
| UserRoutes.UsernameUserMessage | backend/routes/userRoutes.js:93-98 | a duplicate username answers "A user with this username already exists." |
| PostDetailsScreen.CorrectedDownvote | FYsample/components/PostDetailsScreen.js:77-105 | the intended downvote handler changes nothing on a refused press |
| PostDetailsScreen.PostView.constructor | FYsample/components/PostDetailsScreen.js:30-32 | the screen starts showing the post's vote lists, with an empty reason and the report dialog closed |
| SignUpScreen.SignUpForm.constructor | FYsample/components/SignUpScreen.js:16-21 | the form starts with every field and the email error empty |
| SignUpScreen.SignUpForm.EditPhone | FYsample/components/SignUpScreen.js:83-85 | typing in the phone field keeps at most 10 characters and changes no other field or the error |
| SignUpScreen.SignUpForm.EditAadhar | FYsample/components/SignUpScreen.js:93-95 | typing in the Aadhar field keeps at most 12 characters and changes no other field or the error |

## Left out

- Network, `fetch`, the database driver and every server answer seen by a client screen are parameters (a `FetchResult`, an `accepted` flag or a server reply); timeouts, retries and loading flags are not modelled.
- Password hashing and comparison (`bcrypt`) are a `matches` parameter of the login decision; the passport strategy's session handling and serialization (backend/routes/userRoutes.js:33-53) and the session-based admin check, login and logout routes (backend/routes/adminRoutes.js:10-56) are not modelled.
- White space is the ASCII white-space characters plus the no-break space, not the whole Unicode `\s` class; case conversion covers ASCII letters only.
- Geofence coordinates are exact reals; floating-point rounding near an edge of the polygon is not modelled.
- Dates, time zones and `toLocaleString`/`toLocaleDateString` are parameters: "now", the weekday, the start of the month, the calendar and the rendered date text are given to the functions that need them.
- WeekStart: subtracts whole 24-hour days from "now", whereas `setDate(getDate() - getDay())` keeps the local time of day, so across a daylight-saving change the model's start of the week is off by the shift.
- Lengths count Unicode scalar values, whereas JavaScript's `length` and `maxLength` count UTF-16 code units: a character outside the Basic Multilingual Plane (an emoji) counts once here and twice in `ResolvedPage.ShowsReadMore` and the `SignUpScreen` input caps.
- Concurrent requests and the atomicity of `findOneAndUpdate`/`findByIdAndUpdate` are not modelled: each handler is one sequential step on the store.
- The debug routes that list users and look up Aadhar numbers by regular expression (backend/routes/authRoutes.js:120-175) are database plumbing and are not modelled.
- The alternative post schemas (backend/models/afterimg.js and the FYsample/server fragments) are modelled as standalone rules, not wired into the backend's routes, which do not use them.
- AfterImage.Save: the proof-image post carries no `location`, so the required `latitude` and `longitude` of backend/models/afterimg.js are not among the checks it models.
- PostSchema.StatusOrDefault: an explicit empty status is treated like an absent one and becomes "pending"; Mongoose applies the default only to an undefined value, so an explicit `""` would instead fail the enumeration.
- UserSchema.Conflict: reports the first violated unique index in the order Aadhar number, email, username, the order of the `createIndex` calls in backend/models/User.js; those calls are not awaited, and which index the database names when several are violated is not modelled.
- Fresh document ids, creation times and `Date.now()` notification ids are parameters.
- Mongoose behaviour is taken as given: the `trim`/`lowercase` setters also apply to query values, and schema validation runs before the user's pre-save hooks.
- Mongoose behaviour is also taken as given for updates: an `undefined` key in an update object is dropped (Mongoose 6 and later), so an absent `status` writes nothing in `LifecycleTimestamps.ApplyUpdate` and `PostRoutes.SetStatus`; under Mongoose 5 such a key would be written as `null`.
- Malformed ids (a `CastError`) and other unexpected database errors answer 500 in the source; the model has no such inputs. The tie order of the database's sort is taken to be insertion order.
- A request field that is not a string is modelled as the empty string where the source tests it for truthiness.
- `parseInt` is modelled for unsigned decimal text only (no sign, no leading white space).
- `Alert` pop-ups and navigation are not modelled beyond the decision that triggers them.
- GET /public (backend/routes/postRoutes.js:7-27) lists every post with its author populated, like the admin listing but without a guard; it is not a separate member.
- The home screen's vote, share and report buttons (FYsample/components/HomeScreen.js:375-418) and the dashboard's status change (admin/src/components/Dashboard.js:94-117) are a server call followed by an alert or a refetch; they are not modelled.
- The status screen's timeline time text is rendered into an empty element and never shown; its time stamps are not modelled beyond `FormatStamp`.
- The unused `fetchData` of the resolved page (admin/src/pages/Resolved.js:53-74) is never called and is not modelled.
- Image picking, base64 conversion, the location permission and reverse geocoding are parameters of the report form.
- JSX rendering, styles and navigation structure are not modelled.
- StatusUpdateScreen.FormatStamp: the rendering of a present date is the platform's, passed in as a function, so the contract says only that it is used.
- PostDetailsScreen.CorrectedUpvote: the contract states only the refused press; what an accepted press does is stated by `CorrectedVotesWellFormed` and `CorrectedMatchesServer`.
- PostDetailsScreen.CorrectedDownvote: as for `CorrectedUpvote`, the contract states only the refused press; what an accepted press does is stated by `CorrectedVotesWellFormed` and `CorrectedMatchesServer`.

## Findings

| source | as written | input that shows it | evidently intended | confidence | as-written member | corrected member |
|---|---|---|---|---|---|---|
| FYsample/components/HomeScreen.js:84 | the new-report notification compares `post.userId === user?._id`, but `GET /api/posts/public` delivers each post with `userId` populated into a user object, so the comparison is never true for posts delivered by the feed fetch (a report the user creates in the session is prepended as the unpopulated save reply, whose `userId` is the bare id, and that one does match) | the signed-in user "u1" sees their own new post "p1" whose author is populated as ("u1", "asha"): no notification is created | compare the author's id (`post.userId?._id ?? post.userId`) with the user's id, so the user's own new report is announced as pending; since the recorded statuses start empty, this also announces every one of the user's posts as pending on the first load | not executed | HomeScreen.OwnReportMissed | HomeScreen.CorrectedAnnouncesNewReport |
| FYsample/components/PostDetailsScreen.js:48-56 | pressing upvote when already upvoted removes the vote on screen only and sends nothing, while the route would toggle it; the screen and the stored post then disagree | votes ([u1], []) and user u1 presses upvote twice: the screen shows [] then [u1], the server keeps [u1] and then toggles it to [] | send every press and show what the server stores (the route's own toggle) | not executed | PostDetailsScreen.UnvoteNeverReachesServer | PostDetailsScreen.CorrectedMatchesServer |
