# Campus Resource Hub: a verified model of the booking engine and its neighbours

Campus Resource Hub is a Flask web application. Students, staff and administrators use it
to publish campus resources (rooms, labs, equipment), review them, message each other and
book them. This project models its core: the request rules and the table operations
behind bookings, reviews and messages, the notification and iCalendar services, the
resource catalog's listing and forms, the validation in the account pages, a
building-name normaliser, and the stock-image chooser of the front end. It proves what
each of them promises.

Layout, one module per source file:

- `models.dfy` (`Models`): roles, booking statuses, the record types, `mark_as_read` and the rating range.
- `booking_dal.dfy` (`BookingDal`): the booking table, a class with a sequence of rows and the next key. It covers create, the queries, overlap, update, the status setters and delete.
- `bookings_controller.dfy` (`BookingsController`): `check_conflict` and the guard chains of the booking endpoints.
- `expire_bookings.dfy` (`ExpireBookings`): the expiry sweep as a loop over the table, and the expiring-soon window.
- `review_dal.dfy`, `reviews_controller.dfy`: the review table, the rating distribution loop, and the review endpoints.
- `message_dal.dfy`, `messages_controller.dfy`: the message table, thread resolution, read and unread marking, the thread sweep, and the messaging endpoints with the conversation loop.
- `notification_service.dfy`: notification texts and recipients, and a store they are appended to.
- `calendar_service.dfy`: TEXT escaping (section 3.3.11 of RFC 5545), the STATUS map (section 3.8.1.11), the UID, the date-time form, and the lines of the generated calendar.
- `resources_controller.dfy`, `uploads.dfy`: extension checks, the listing filters and page arithmetic, dropdowns, search, form validation, and the catalog's create, edit and delete.
- `auth_controller.dfy`: registration, login, password change, picture upload and preference parsing.
- `building_names.dfy`: `extract_building_name`.
- `resource_images.dfy`: `getResourceStockImage`.
- Helper modules:
  - `common.dfy`: Option and Result.
  - `strings.dfy`: ASCII case, strip, split, substring, and decimal rendering.
  - `seqs.dfy`: Python slices.
  - `sorting.dfy`: a stable sort by key, and sorted sets of strings.
  - `http.dfy`: status codes.

How the model represents the source:

- Times are integers.
- Database tables are classes holding a sequence of rows in key order and the next key.
- Each query is a function over the rows, and `ORDER BY` is a stable sort on the key.
- The methods that change a table state the whole new table in terms of those functions.
- The clock, password hashing, `secure_filename` and the stored image path are parameters.
- Where a source test reads Python truth (`not x`), the model does the same: 0 and the empty string count as missing.

Three behaviours of the code a reader may not expect:

- `msb` does not always give the Multidisciplinary Science Building. An earlier branch of the chain wins when it also matches.
- The messaging endpoint's mark-read calls the model's `mark_as_read`, which stamps the time again. The data-access `mark_as_read` leaves a read message untouched.
- Confirming a booking, or an admin setting its status to `confirmed`, does not re-check conflicts. So whether confirmed bookings stay disjoint depends on the data. `BookingsController.ConfirmBreaksDisjointness` shows two overlapping pending bookings that both become confirmed.

## Model

| member | source | states |
|---|---|---|
| Models.ExactlyOneRole | campus_resource_hub/src/models/models.py:17-77 | a user whose role is one of `VALID_ROLES` passes exactly one of `is_admin`, `is_staff`, `is_student` |
| Models.NoRoleOutsideValid | campus_resource_hub/src/models/models.py:67-77 | a role outside the three constants passes none of the role tests |
| Models.NewResource | campus_resource_hub/src/models/models.py:118-142 | a resource built from its required columns is available, needs no approval, is published and has no description, capacity or image |
| Models.NewBooking | campus_resource_hub/src/models/models.py:189-199 | a booking row created without a status is `pending` with no notes, and keeps the given user, resource and times |
| Models.ValidStatusesExactly | campus_resource_hub/src/models/models.py:181-186 | the booking statuses are exactly the four named constants, pairwise different |
| Models.MarkAsRead | campus_resource_hub/src/models/models.py:260-263 | `mark_as_read` sets the read flag and the read time to now, whether or not it was read already, and touches no other field |
| Models.ValidRatingRange | campus_resource_hub/src/models/models.py:313 | the rating check constraint admits exactly 1, 2, 3, 4 and 5 |
| Uploads.Extension | campus_resource_hub/src/controllers/resources.py:34-36 | a name has an extension exactly when it contains a dot, and the extension itself holds no dot |
| Uploads.ExtensionOfName | campus_resource_hub/src/controllers/resources.py:36 | the extension is the lower-cased text after the last dot, whatever comes before it |
| Uploads.AllowedExtensionIff | campus_resource_hub/src/controllers/auth.py:285 | a name passes the extension test exactly when the lower-cased text after its last dot is in the allowed set, in any letter case |
| Uploads.NoDotRefused | campus_resource_hub/src/controllers/resources.py:36 | a name without a dot is refused whatever the allowed set is |
| AuthController.StrippedOrNone | campus_resource_hub/src/controllers/auth.py:36 | the department is `None` exactly when it is blank after stripping, and the stripped text otherwise |
| AuthController.RegisterDecision | campus_resource_hub/src/controllers/auth.py:22-69 | the checks of `register` in order and the account it would store; `RegisterGuardOrder`, `RegisteredAccount` and `RegisterKeepsUnique` state their meaning |
| AuthController.RegisterGuardOrder | campus_resource_hub/src/controllers/auth.py:27-69 | each refusal of `register` happens exactly when every earlier check passed and its own check fails, in the source's order; an account is created exactly when all seven pass |
| AuthController.RegisteredAccount | campus_resource_hub/src/controllers/auth.py:35-61 | a created account is a student account with the stripped username, email and name, a password that matched its confirmation, at least 3 and 6 characters long, and a username and email nobody uses |
| AuthController.RequestedRoleIgnored | campus_resource_hub/src/controllers/auth.py:33-35 | the role a client submits has no effect on what registration does |
| AuthController.RegisterKeepsUnique | campus_resource_hub/src/controllers/auth.py:41-61 | storing an account that registration accepts keeps usernames and emails unique across accounts |
| AuthController.FindByUsername | campus_resource_hub/src/controllers/auth.py:111-118 | the lookup finds a stored account with that username, and finds nothing exactly when no account has it |
| AuthController.LandingAsWritten | campus_resource_hub/src/controllers/auth.py:133-141 | as written, login follows `next` exactly when it is non-empty and starts with a slash |
| AuthController.OpenRedirectAsWritten | campus_resource_hub/src/controllers/auth.py:134-136 | as written, `next=//evil.example`, which is not a path on this site, is followed after login |
| AuthController.LandingIsLocal | campus_resource_hub/src/controllers/auth.py:133-141 | the corrected landing follows `next` exactly when it is a local path, else goes to the dashboard exactly for admins and staff and to the resource list for the rest |
| AuthController.LandingDiffersOnlyOnHosts | campus_resource_hub/src/controllers/auth.py:135 | the corrected and the written guards differ exactly on a `next` starting with `//` or `/\` |
| AuthController.LoginDecision | campus_resource_hub/src/controllers/auth.py:92-141 | with the intended `next` guard (see Findings, auth.py:135): the outcome of `login` and where it lands; `LoginSucceeds`, `WrongPasswordHidesDeactivation` and `LandingIsLocal` state its meaning |
| AuthController.LoginSucceeds | campus_resource_hub/src/controllers/auth.py:98-141 | with the intended `next` guard (see Findings, auth.py:135): login succeeds exactly when both fields are given and the stored account with that username is active and its password checks; it asks for credentials exactly when either field is blank; it reports invalid credentials only for an unknown name or a failed password check |
| AuthController.WrongPasswordHidesDeactivation | campus_resource_hub/src/controllers/auth.py:120-126 | with a password that checks for no account, the answer is "invalid credentials", never "deactivated" |
| AuthController.ChangePasswordDecision | campus_resource_hub/src/controllers/auth.py:224-245 | the checks of `change_password` in order; `ChangePasswordOrder` states when each refusal happens |
| AuthController.ChangePasswordOrder | campus_resource_hub/src/controllers/auth.py:227-245 | each refusal of a password change happens exactly when the earlier checks pass and its own fails; the new password is stored exactly when the current one checks, the new one has at least 6 characters, matches its confirmation and differs from the current one |
| AuthController.PictureDecision | campus_resource_hub/src/controllers/auth.py:264-294 | the checks of `upload_profile_picture` in order; `PictureOrder` and `PictureOfName` state when each refusal happens |
| AuthController.PictureOrder | campus_resource_hub/src/controllers/auth.py:272-294 | a picture is refused for no file, then for a type outside png/jpg/jpeg/gif, then for more than 5 MB, each exactly when the earlier checks pass; an accepted extension is one of the four |
| AuthController.StoredPictureAllowed | campus_resource_hub/src/controllers/auth.py:313-314 | the stored name `user_<id>_<stamp>.<ext>` keeps the accepted extension and passes the same type test again |
| AuthController.PictureOfName | campus_resource_hub/src/controllers/auth.py:284-294 | a file `<base>.<ext>` is judged only by its lower-cased extension and then by its size |
| AuthController.UpperCasePngAccepted | campus_resource_hub/src/controllers/auth.py:285-292 | `Me.PNG` of exactly 5 MB is accepted as png |
| AuthController.WebpPictureRefused | campus_resource_hub/src/controllers/auth.py:284-287 | a `.webp` picture is refused as an invalid type |
| AuthController.OversizedPictureRefused | campus_resource_hub/src/controllers/auth.py:292-294 | a picture one byte over 5 MB is refused as too large |
| AuthController.NonBlankParts | campus_resource_hub/src/controllers/auth.py:386 | the comprehension keeps at most as many entries as there are parts |
| AuthController.ExtendWithCustom | campus_resource_hub/src/controllers/auth.py:383-386 | the list is the checked values followed by the custom entries of the stripped field |
| AuthController.NonBlankPartsClean | campus_resource_hub/src/controllers/auth.py:386 | every kept entry is non-empty, stripped and free of commas |
| AuthController.NonBlankPartsComplete | campus_resource_hub/src/controllers/auth.py:386 | every part that is not blank is kept, stripped |
| AuthController.NonBlankPartsOfClean | campus_resource_hub/src/controllers/auth.py:386 | parts that are already clean are kept exactly as they are |
| AuthController.CustomEntriesShape | campus_resource_hub/src/controllers/auth.py:384-386 | the custom entries are clean and include every non-blank comma-separated part of the field |
| AuthController.CustomEntriesRoundTrip | campus_resource_hub/src/controllers/auth.py:384-386 | clean entries joined with commas parse back to the same entries |
| AuthController.CollectPreferences | campus_resource_hub/src/controllers/auth.py:381-408 | interests and locations are the checked values followed by the custom entries; study preferences keep exactly the non-empty lists; accessibility needs are exactly the submitted non-empty values, in order and with repeats |
| AuthController.StudyPreferences | campus_resource_hub/src/controllers/auth.py:394-400 | each study key is present exactly when its list is non-empty, holding that list, and no other key is present |
| BookingDal.Find | campus_resource_hub/src/data_access/booking_dal.py:56-70 | the lookup by key finds a stored row with that key, and finds nothing exactly when no row has it |
| BookingDal.FindAt | campus_resource_hub/src/data_access/booking_dal.py:70 | with distinct keys, looking a row's key up gives back that row |
| BookingDal.Replace | campus_resource_hub/src/data_access/booking_dal.py:257-260 | writing a row back replaces exactly the row with that key, leaving the others and the order as they were |
| BookingDal.ReplaceKeepsIds | campus_resource_hub/src/data_access/booking_dal.py:257-260 | writing back a row under its own key keeps the keys distinct and in range |
| BookingDal.ApplyAllFields | campus_resource_hub/src/data_access/booking_dal.py:256-259 | the update loop sets exactly the whitelisted fields that were passed, the last value of each winning, and keeps key, owner and resource |
| BookingDal.SetAttributes | campus_resource_hub/src/data_access/booking_dal.py:257-259 | the `setattr` loop gives the booking with every passed whitelisted key assigned in order |
| BookingDal.ApplyAllIgnoresOther | campus_resource_hub/src/data_access/booking_dal.py:256-258 | a key outside `status`, `notes`, `start_time`, `end_time` has no effect, wherever it is passed |
| BookingDal.UpdateResultErrors | campus_resource_hub/src/data_access/booking_dal.py:246-254 | an update fails with "not found" exactly for a missing key, and with an invalid range exactly when both new times are passed and the start is not before the end; the updated row keeps its key |
| BookingDal.Query | campus_resource_hub/src/data_access/booking_dal.py:91-94 | a query returns only stored rows that pass its filter, ordered by start time, at most `limit` of them when a limit is given, and unpaged every passing row |
| BookingDal.ByUser | campus_resource_hub/src/data_access/booking_dal.py:75-94 | every returned booking belongs to the user, and they come ordered by start time; without limit or offset, the result holds exactly the stored bookings that belong to the user, each as often as stored |
| BookingDal.UserByStatus | campus_resource_hub/src/data_access/booking_dal.py:99-119 | every returned booking belongs to the user and has the status, ordered by start time; without limit or offset, the result holds exactly the stored bookings that belong to the user and have the status, each as often as stored |
| BookingDal.ByResource | campus_resource_hub/src/data_access/booking_dal.py:124-143 | every returned booking is on the resource, ordered by start time; without limit or offset, the result holds exactly the stored bookings that are on the resource, each as often as stored |
| BookingDal.ByStatus | campus_resource_hub/src/data_access/booking_dal.py:148-167 | every returned booking has the status, ordered by start time; without limit or offset, the result holds exactly the stored bookings that have the status, each as often as stored |
| BookingDal.AllBookings | campus_resource_hub/src/data_access/booking_dal.py:208-226 | unpaged, the listing is every stored booking once, ordered by start time |
| BookingDal.OverlapsSymmetric | campus_resource_hub/src/data_access/booking_dal.py:195-197 | the half-open overlap test gives the same answer with the two intervals swapped |
| BookingDal.ConfirmedForResource | campus_resource_hub/src/data_access/booking_dal.py:172-203 | the query returns, ordered by start time, exactly the stored confirmed bookings of the resource that meet the given bounds, none twice more often than stored |
| BookingDal.ConfirmedQueryBothBounds | campus_resource_hub/src/data_access/booking_dal.py:189-197 | with both bounds, a booking is returned exactly when it is stored, on the resource, confirmed, and starts before the query ends and ends after it starts |
| BookingDal.AdjacentNotReturned | campus_resource_hub/src/data_access/booking_dal.py:195-197 | a booking that ends when the query starts, or starts when it ends, is not returned |
| BookingDal.OnlyConfirmedReturned | campus_resource_hub/src/data_access/booking_dal.py:189-192 | a pending, cancelled or completed booking is never returned, whatever the bounds |
| BookingDal.ConfirmedQueryOneBound | campus_resource_hub/src/data_access/booking_dal.py:198-203 | with only a start bound a confirmed booking is returned exactly when it ends after it, with only an end bound exactly when it starts before it, and with none always |
| BookingDal.BookingTable.constructor | campus_resource_hub/src/data_access/booking_dal.py:16-50 | the table starts empty, with key 1 next |
| BookingDal.BookingTable.CreateBooking | campus_resource_hub/src/data_access/booking_dal.py:16-50 | an empty or inverted range is refused and nothing is stored; otherwise one row with the next key, the given fields and status is appended |
| BookingDal.BookingTable.UpdateBooking | campus_resource_hub/src/data_access/booking_dal.py:231-262 | the answer is that of the update rules, and on success exactly the row with that key is replaced by the updated booking |
| BookingDal.BookingTable.SetStatusOf | campus_resource_hub/src/data_access/booking_dal.py:268-289 | a stored booking gets the new status whatever its current one; a missing key is "not found" and changes nothing |
| BookingDal.BookingTable.ConfirmBooking | campus_resource_hub/src/data_access/booking_dal.py:268-289 | the booking becomes `confirmed` whatever its status, with no conflict check |
| BookingDal.BookingTable.CancelBooking | campus_resource_hub/src/data_access/booking_dal.py:295-316 | the booking becomes `cancelled` whatever its status |
| BookingDal.BookingTable.CompleteBooking | campus_resource_hub/src/data_access/booking_dal.py:322-343 | the booking becomes `completed` whatever its status |
| BookingDal.BookingTable.DeleteBooking | campus_resource_hub/src/data_access/booking_dal.py:349-369 | the answer is whether the key was stored; exactly that one row is removed and the others keep their order |
| BookingDal.BookingTable.BookingCount | campus_resource_hub/src/data_access/booking_dal.py:375-386 | the count is the number of stored bookings |
| BookingDal.RemoveOne | campus_resource_hub/src/data_access/booking_dal.py:362-369 | deleting a stored key from rows with distinct keys removes exactly one row and keeps the keys valid |
| BookingsController.CheckConflict | campus_resource_hub/src/controllers/bookings.py:15-39 | the conflict query of `check_conflict` on the stored bookings; its meaning is stated by `CheckConflictExact` and `ConflictWith` |
| BookingsController.ConflictFromQuery | campus_resource_hub/src/controllers/bookings.py:20-39 | a query that raised counts as no conflict; otherwise there is a conflict exactly when the query found a booking |
| BookingsController.CheckConflictExact | campus_resource_hub/src/controllers/bookings.py:20-37 | there is a conflict exactly when some stored confirmed booking of the resource overlaps the half-open slot |
| BookingsController.AddUnconfirmedKeepsDisjoint | campus_resource_hub/src/controllers/bookings.py:160-167 | storing a booking that is not confirmed keeps the confirmed bookings of each resource pairwise disjoint |
| BookingsController.NotesOrNone | campus_resource_hub/src/controllers/bookings.py:166 | empty notes are stored as none, other notes as given |
| BookingsController.CreateDecision | campus_resource_hub/src/controllers/bookings.py:96-167 | the guard chain of `create_booking` and the booking it would store; each outcome is stated by `CreateGuardOrder` and `CreatedBookingIsFree` |
| BookingsController.CreateGuardOrder | campus_resource_hub/src/controllers/bookings.py:115-167 | create answers 404 exactly for a filled request on an unknown resource, 409 exactly for a proper free-of-guard range that conflicts, 400 exactly for a missing field, bad time or inverted range, and creates exactly when every guard passes |
| BookingsController.CreatedBookingIsFree | campus_resource_hub/src/controllers/bookings.py:124-167 | a created booking is on an existing resource, has start before end, non-empty notes or none, and overlaps no confirmed booking of its resource |
| BookingsController.CreateBookingEndpoint | campus_resource_hub/src/controllers/bookings.py:96-167 | a refused create changes nothing; an accepted one appends one pending booking for the caller and answers 201; confirmed bookings stay pairwise disjoint |
| BookingsController.UpdateDecision | campus_resource_hub/src/controllers/bookings.py:183-265 | the guard chain of `update_booking` and the fields it would apply; its outcomes are stated by `UpdateAuthorization`, `UpdateFieldsWellFormed` and the lemmas after them |
| BookingsController.UpdateTimes | campus_resource_hub/src/controllers/bookings.py:216-245 | the time part contributes nothing exactly when neither time is sent, and otherwise a start and an end with start before end |
| BookingsController.UpdateStatusField | campus_resource_hub/src/controllers/bookings.py:251-261 | a status is set only by an admin and only to one of the four valid statuses |
| BookingsController.UpdateAuthorization | campus_resource_hub/src/controllers/bookings.py:200-264 | an accepted update is of a stored booking by its owner or an admin, has at least one field, and carries no status unless the caller is an admin |
| BookingsController.UpdateFieldsWellFormed | campus_resource_hub/src/controllers/bookings.py:216-265 | the fields an accepted update passes on have distinct whitelisted keys, and a start is passed exactly when an end is, before it |
| BookingsController.UpdateSelfConflict | campus_resource_hub/src/controllers/bookings.py:236-241 | a confirmed booking moved to a slot overlapping its own old slot conflicts with itself and is refused with 409 |
| BookingsController.ConflictWith | campus_resource_hub/src/controllers/bookings.py:20-37 | a stored confirmed booking overlapping the slot is a conflict |
| BookingsController.UpdateSameTimesNoConflictCheck | campus_resource_hub/src/controllers/bookings.py:236 | re-sending the booking's own times skips the conflict check, and the update goes through |
| BookingsController.AdminStatusChangeUnchecked | campus_resource_hub/src/controllers/bookings.py:251-261 | an admin may set any stored booking to any valid status, `confirmed` included, with no transition or conflict check |
| BookingsController.UpdateEmptyRejected | campus_resource_hub/src/controllers/bookings.py:263-264 | a body with no recognised field is refused with 400 |
| BookingsController.UpdateBookingEndpoint | campus_resource_hub/src/controllers/bookings.py:183-273 | a refused update changes nothing; an accepted one replaces exactly that booking by the one with the decided fields applied, and answers 200 |
| BookingsController.ConfirmDecision | campus_resource_hub/src/controllers/bookings.py:315-340 | the answer of `confirm_booking`; `ConfirmDecisionExact` states when each answer is given |
| BookingsController.ConfirmDecisionExact | campus_resource_hub/src/controllers/bookings.py:325-340 | confirm succeeds exactly for an admin on a stored pending booking, and is forbidden exactly for a non-admin on a stored one |
| BookingsController.ConfirmTwiceFails | campus_resource_hub/src/controllers/bookings.py:334-337 | after a successful confirm, confirming the same booking again is refused with 400 |
| BookingsController.ConfirmBookingEndpoint | campus_resource_hub/src/controllers/bookings.py:315-346 | the answer is the confirm decision; only on success does exactly that booking become confirmed |
| BookingsController.ConfirmBreaksDisjointness | campus_resource_hub/src/controllers/bookings.py:153-165 | two overlapping pending bookings of one resource can both be created and both be confirmed, after which confirmed bookings overlap |
| BookingsController.CancelDecision | campus_resource_hub/src/controllers/bookings.py:283-301 | the answer of `cancel_booking`; `CancelIgnoresStatus` states who may cancel and that the status is not consulted |
| BookingsController.CancelIgnoresStatus | campus_resource_hub/src/controllers/bookings.py:294-301 | the owner or an admin may cancel a booking whatever its status, and may cancel it again |
| BookingsController.CancelBookingEndpoint | campus_resource_hub/src/controllers/bookings.py:283-307 | the answer is the cancel decision; only on success does exactly that booking become cancelled |
| BookingsController.ListBookings | campus_resource_hub/src/controllers/bookings.py:44-66 | a listing holds only stored bookings; a non-admin sees only their own; an admin asking for a status sees only that status; without limit or offset a non-admin sees all their own bookings, an admin asking for a status all bookings with it, and an admin asking for none every stored booking |
| BookingsController.GetBooking | campus_resource_hub/src/controllers/bookings.py:78-89 | a booking is returned exactly when it is stored and the caller is its owner or an admin; 404 is answered exactly for an unknown id |
| ExpireBookings.Expire | campus_resource_hub/expire_bookings.py:33-41 | an active booking that ended before now becomes completed; any other booking is left as it is |
| ExpireBookings.Sweep | campus_resource_hub/expire_bookings.py:33-44 | the table after the sweep has the same rows in the same order, each expired or kept by that rule |
| ExpireBookings.CountIsQuerySize | campus_resource_hub/expire_bookings.py:33-41 | the returned count is the number of rows the job's query selects |
| ExpireBookings.ExpirePastBookings | campus_resource_hub/expire_bookings.py:21-49 | the table becomes the swept table, no key changes, and the answer is the number of expired rows |
| ExpireBookings.MarkCompleted | campus_resource_hub/expire_bookings.py:38-41 | the loop gives the swept rows and counts the rows it marks completed |
| ExpireBookings.SweepEffect | campus_resource_hub/expire_bookings.py:33-40 | a row changes exactly when it is active, ended before now and not already completed, and then only its status, which becomes completed; cancelled, completed and unfinished rows stay |
| ExpireBookings.EndingNowNotExpired | campus_resource_hub/expire_bookings.py:34 | a booking ending exactly now is not expired, as the comparison is strict |
| ExpireBookings.NothingLeftToExpire | campus_resource_hub/expire_bookings.py:33-36 | after a sweep no row is left for the same now |
| ExpireBookings.SweepIdempotent | campus_resource_hub/expire_bookings.py:21-49 | a second run with the same now changes nothing and returns 0 |
| ExpireBookings.CountBounded | campus_resource_hub/expire_bookings.py:38-41 | the count is at most the number of rows, and equals it exactly when every row is expirable |
| ExpireBookings.SweepKeepsDisjoint | campus_resource_hub/expire_bookings.py:39-40 | the sweep keeps the confirmed bookings of each resource pairwise disjoint |
| ExpireBookings.ExpiringSoon | campus_resource_hub/expire_bookings.py:52-75 | the query returns exactly the stored active bookings ending between now and now plus the given hours |
| ExpireBookings.ExpiringSoonInclusive | campus_resource_hub/expire_bookings.py:69-73 | a booking ending exactly now, or exactly at the end of the window, is included |
| ExpireBookings.ExpiredAndExpiringDisjoint | campus_resource_hub/expire_bookings.py:33-73 | for one now, no booking is both due to expire and expiring soon |
| ReviewDal.FindReview | campus_resource_hub/src/data_access/review_dal.py:54-68 | the lookup finds a stored review with that key, and nothing exactly when no review has it |
| ReviewDal.ReplaceReview | campus_resource_hub/src/data_access/review_dal.py:278-281 | writing a review back replaces exactly the review with that key |
| ReviewDal.FilterReviewsValid | campus_resource_hub/src/data_access/review_dal.py:23-48 | any subset of a valid table, kept in order, still has distinct keys and ratings in 1..5 |
| ReviewDal.OfResource | campus_resource_hub/src/data_access/review_dal.py:216 | the selection holds exactly the stored reviews of the resource |
| ReviewDal.RatingCount | campus_resource_hub/src/data_access/review_dal.py:213-216 | the count of a rating is the number of reviews with that rating |
| ReviewDal.RatingCountPositive | campus_resource_hub/src/data_access/review_dal.py:213-219 | a rating's count is positive exactly when some review has that rating |
| ReviewDal.RatingCountsSum | campus_resource_hub/src/data_access/review_dal.py:205-221 | when every rating is in 1..5, the five counts add up to the number of reviews |
| ReviewDal.ByRating | campus_resource_hub/src/data_access/review_dal.py:121-149 | a rating outside 1..5 is refused, and only then; otherwise the reviews of the resource with that rating, newest first, at most `limit`, and unpaged all of them |
| ReviewDal.NewestPageOf | campus_resource_hub/src/data_access/review_dal.py:142-147 | a page holds only the given reviews, newest first, at most `limit`, and unpaged every one |
| ReviewDal.DistinctRatings | campus_resource_hub/src/data_access/review_dal.py:216 | the groups of the grouped query are exactly the ratings that occur |
| ReviewDal.GroupByRating | campus_resource_hub/src/data_access/review_dal.py:213-216 | the grouped query gives one (rating, count) row per occurring rating |
| ReviewDal.DistributionShape | campus_resource_hub/src/data_access/review_dal.py:197-221 | the distribution has exactly the keys 1..5, each with its count, and the counts sum to the resource's number of reviews |
| ReviewDal.OfResourceValid | campus_resource_hub/src/models/models.py:313 | in a table that meets the check constraint, every review of a resource has a rating in 1..5 |
| ReviewDal.GroupsAreRatings | campus_resource_hub/src/data_access/review_dal.py:213-219 | with valid ratings, every group key is one of 1..5, so the loop adds no key |
| ReviewDal.OverwriteConsistent | campus_resource_hub/src/data_access/review_dal.py:218-219 | overwriting a map with (key, value) pairs gives each key that occurs its pair's value and keeps the base value elsewhere |
| ReviewDal.GroupKeys | campus_resource_hub/src/data_access/review_dal.py:213-216 | a rating is a group key exactly when it occurs |
| ReviewDal.OverwriteGroupsKeys | campus_resource_hub/src/data_access/review_dal.py:211-219 | overwriting the zeroes with the groups of valid reviews keeps exactly the keys 1..5 |
| ReviewDal.OverwriteGroupsValues | campus_resource_hub/src/data_access/review_dal.py:211-219 | overwriting the zeroes with the groups gives each rating 1..5 its count, and 0 when it does not occur |
| ReviewDal.MapsAgree | campus_resource_hub/src/data_access/review_dal.py:211-221 | two maps with keys 1..5 that agree with the same counts are equal |
| ReviewDal.GroupsGiveDistribution | campus_resource_hub/src/data_access/review_dal.py:211-221 | the loop over the grouped query yields exactly the promised distribution |
| ReviewDal.CopyGroups | campus_resource_hub/src/data_access/review_dal.py:211-219 | the loop starts from zero for 1..5 and writes each pair's count under its rating, in order |
| ReviewDal.DistributionZero | campus_resource_hub/src/data_access/review_dal.py:211 | a rating no review of the resource has shows as 0 |
| ReviewDal.ApplyReviewFields | campus_resource_hub/src/data_access/review_dal.py:277-280 | the update loop changes only rating and comment, to the last values passed; key, title, owner, resource and time stay |
| ReviewDal.SetAttributes | campus_resource_hub/src/data_access/review_dal.py:278-280 | the `setattr` loop gives the review with each whitelisted key assigned in order |
| ReviewDal.UpdateReviewErrors | campus_resource_hub/src/data_access/review_dal.py:268-283 | an update fails with "not found" exactly for a missing key, with an invalid rating exactly when a rating outside 1..5 is passed, and a success keeps key, title, owner, resource and time |
| ReviewDal.UserReviewedResource | campus_resource_hub/src/data_access/review_dal.py:354-369 | the answer is true exactly when a stored review of that user for that resource exists |
| ReviewDal.ReviewTable.constructor | campus_resource_hub/src/data_access/review_dal.py:17-48 | the table starts empty, with key 1 next |
| ReviewDal.ReviewTable.CreateReview | campus_resource_hub/src/data_access/review_dal.py:17-48 | a rating outside 1..5 is refused and nothing is stored; otherwise one review with the next key and the given fields is appended |
| ReviewDal.ReviewTable.RatingDistribution | campus_resource_hub/src/data_access/review_dal.py:197-221 | the answer is the distribution of the resource's reviews, with exactly the keys 1..5 |
| ReviewDal.ReviewTable.UpdateReview | campus_resource_hub/src/data_access/review_dal.py:253-283 | the answer is that of the update rules, and on success exactly the review with that key is replaced |
| ReviewDal.ReviewTable.DeleteReview | campus_resource_hub/src/data_access/review_dal.py:289-309 | the answer is whether the key was stored; the review with that key is removed and the rest keep their order |
| ReviewDal.ReviewTable.DeleteResourceReviews | campus_resource_hub/src/data_access/review_dal.py:315-332 | every review of the resource is removed, the others keep their order, and the answer is how many were removed |
| ReviewDal.ReviewTable.ReviewCount | campus_resource_hub/src/data_access/review_dal.py:338-349 | the count is the number of stored reviews |
| ReviewsController.RatingOf | campus_resource_hub/src/controllers/reviews.py:59-65 | a rating is accepted exactly when `int()` gives a value in 1..5, and then it is that value |
| ReviewsController.CommentOrNone | campus_resource_hub/src/controllers/reviews.py:86 | an empty comment is stored as none, any other as given |
| ReviewsController.StrippedComment | campus_resource_hub/src/controllers/reviews.py:51 | a missing comment is the empty text, a text comment is stripped, and any other value makes stripping fail |
| ReviewsController.CreateReviewDecision | campus_resource_hub/src/controllers/reviews.py:30-86 | the guard chain of `create_review` and the review it would store; `CreateReviewGuardOrder` and `CreatedReviewIsClean` state its meaning |
| ReviewsController.CreateReviewGuardOrder | campus_resource_hub/src/controllers/reviews.py:44-86 | create answers 500 exactly when the comment cannot be stripped, 400 exactly for a missing resource id, a missing or bad rating, or an over-long comment on a known resource, 404 exactly for an unknown resource after a good rating, 409 exactly for a repeat review, and stores exactly when every guard passes |
| ReviewsController.CreatedReviewIsClean | campus_resource_hub/src/controllers/reviews.py:53-86 | a stored review has a rating in 1..5, is for an existing resource the caller had not reviewed, and has no comment or a stripped non-empty one of at most 2000 characters |
| ReviewsController.BlankCommentStoredAsNone | campus_resource_hub/src/controllers/reviews.py:51-86 | a missing or blank comment is stored as none |
| ReviewsController.CommentLimitAfterStrip | campus_resource_hub/src/controllers/reviews.py:51-74 | the 2000-character limit is applied after stripping, so surrounding blanks do not count |
| ReviewsController.AppendKeepsOnePerUser | campus_resource_hub/src/controllers/reviews.py:76-86 | adding a review for a (user, resource) pair that has none keeps one review per pair |
| ReviewsController.CreateReviewEndpoint | campus_resource_hub/src/controllers/reviews.py:30-101 | a refused create changes nothing; an accepted one appends exactly the decided review for the caller and answers 201; one review per pair is kept |
| ReviewsController.UpdateReviewDecision | campus_resource_hub/src/controllers/reviews.py:226-276 | the guard chain of `update_review` and the fields it would apply; `UpdateReviewAuthorization` and `UpdateReviewFieldsWellFormed` state its meaning |
| ReviewsController.RatingUpdate | campus_resource_hub/src/controllers/reviews.py:254-262 | the rating part is empty exactly when no rating is sent, else one valid rating, else 400 |
| ReviewsController.CommentUpdate | campus_resource_hub/src/controllers/reviews.py:264-269 | the comment part is empty exactly when no comment is sent, else one comment assignment, else 400 or 500 |
| ReviewsController.UpdateReviewAuthorization | campus_resource_hub/src/controllers/reviews.py:238-244 | 404 means the review is missing; 403 is answered exactly for a stored review of someone else to a non-admin; an applied update is of a stored review by its reviewer or an admin |
| ReviewsController.UpdateReviewFieldsWellFormed | campus_resource_hub/src/controllers/reviews.py:252-276 | an applied update passes one or two distinct whitelisted fields with a valid rating, which the data layer accepts |
| ReviewsController.RatingThenCommentWellFormed | campus_resource_hub/src/controllers/reviews.py:252-269 | a rating part then a comment part name each key once and carry a valid rating |
| ReviewsController.UpdateReviewEmptyRejected | campus_resource_hub/src/controllers/reviews.py:272-273 | a body with neither key is refused with 400 |
| ReviewsController.UpdateBlankCommentStoredEmpty | campus_resource_hub/src/controllers/reviews.py:266 | on update a comment of blanks is stored as the empty text, not as none, because the truthiness test comes before stripping |
| ReviewsController.UpdateRatingCheckedFirst | campus_resource_hub/src/controllers/reviews.py:255-268 | a bad rating is reported as 400 whatever the comment is |
| ReviewsController.ReplaceKeepsOnePerUser | campus_resource_hub/src/data_access/review_dal.py:277-281 | replacing a review by one with the same reviewer and resource keeps one review per pair |
| ReviewsController.UpdateKeepsOnePerUser | campus_resource_hub/src/controllers/reviews.py:271-276 | an applied update is accepted by the data layer and keeps one review per pair |
| ReviewsController.UpdateReviewEndpoint | campus_resource_hub/src/controllers/reviews.py:226-288 | a refused update changes nothing; an applied one replaces exactly that review by the updated one and answers 200; one review per pair is kept |
| ReviewsController.DeleteReviewDecision | campus_resource_hub/src/controllers/reviews.py:302-309 | 404 exactly for a missing review, 403 exactly for someone else's review and a non-admin, 200 exactly for the reviewer or an admin |
| ReviewsController.DeleteReviewEndpoint | campus_resource_hub/src/controllers/reviews.py:295-320 | the answer is the delete decision; only on success is the review removed, the rest keeping their order and one review per pair |
| MessageDal.FindMessage | campus_resource_hub/src/data_access/message_dal.py:71-85 | the lookup finds a stored message with that key, and nothing exactly when no message has it |
| MessageDal.FindMessageAt | campus_resource_hub/src/data_access/message_dal.py:85 | with distinct keys, looking a message's key up gives back that message |
| MessageDal.ReplaceMessage | campus_resource_hub/src/data_access/message_dal.py:250-253 | writing a message back replaces exactly the message with that key |
| MessageDal.FilterMessagesValid | campus_resource_hub/src/data_access/message_dal.py:404-424 | any subset of a table with valid keys, kept in order, still has valid keys |
| MessageDal.UserConversations | campus_resource_hub/src/data_access/message_dal.py:90-114 | the listing holds only stored messages the user sent or received, newest first, at most `limit`, and unpaged all of them |
| MessageDal.ThreadMessages | campus_resource_hub/src/data_access/message_dal.py:119-138 | the listing holds only stored messages of the thread, oldest first, at most `limit`, and unpaged all of them |
| MessageDal.FirstBetweenShift | campus_resource_hub/src/data_access/message_dal.py:43-47 | a leading message not between the two users does not change which message is first between them |
| MessageDal.FirstBetween | campus_resource_hub/src/data_access/message_dal.py:43-47 | the lookup gives the earliest stored message between the two users in either direction, and nothing exactly when there is none |
| MessageDal.FirstBetweenSymmetric | campus_resource_hub/src/data_access/message_dal.py:43-47 | the lookup does not depend on which user is the sender |
| MessageDal.ResolveThread | campus_resource_hub/src/data_access/message_dal.py:40-53 | the thread a new message joins; `ResolveThreadCases` states each case |
| MessageDal.ResolveThreadCases | campus_resource_hub/src/data_access/message_dal.py:40-53 | a truthy thread id is kept; without one, the first message of the conversation gives its own truthy thread or else its id; with no conversation the argument stays |
| MessageDal.ConversationSharesThread | campus_resource_hub/src/data_access/message_dal.py:40-53 | once a conversation exists, new messages between the two users sent without a thread, in either direction, land in one and the same thread |
| MessageDal.ReadOnce | campus_resource_hub/src/data_access/message_dal.py:250-253 | the message ends read; an unread one gets the read stamp, a read one is left as it is |
| MessageDal.UnreadOnce | campus_resource_hub/src/data_access/message_dal.py:280-283 | the message ends unread; a read one loses its stamp, an unread one is left as it is |
| MessageDal.ReadOnceIdempotent | campus_resource_hub/src/data_access/message_dal.py:250-253 | marking read twice is marking read once, and the first stamp stays |
| MessageDal.UnreadOnceIdempotent | campus_resource_hub/src/data_access/message_dal.py:280-283 | marking unread twice is marking unread once |
| MessageDal.ReadUnreadRoundTrip | campus_resource_hub/src/data_access/message_dal.py:250-283 | unread then read gives a fresh stamp, read then unread clears it, and no other field changes |
| MessageDal.ModelReadDiffersFromDal | campus_resource_hub/src/models/models.py:260-263 | the record's own `mark_as_read` re-stamps a read message, which the data layer's version does not |
| MessageDal.ReadIfInThread | campus_resource_hub/src/data_access/message_dal.py:305-311 | an unread message of the thread becomes read with the stamp; any other message is left as it is |
| MessageDal.ReadThread | campus_resource_hub/src/data_access/message_dal.py:305-314 | the table after the sweep has the same messages in the same order, each marked by that rule |
| MessageDal.CountIsThreadQuery | campus_resource_hub/src/data_access/message_dal.py:305-311 | the returned count is the number of unread messages the thread query selects |
| MessageDal.ReadThreadEffect | campus_resource_hub/src/data_access/message_dal.py:305-314 | after the sweep the thread has no unread message, and messages of other threads and already read ones are unchanged |
| MessageDal.ReadStep | campus_resource_hub/src/data_access/message_dal.py:308-311 | one turn of the loop marks and counts the message at hand and leaves the rest |
| MessageDal.ReadRows | campus_resource_hub/src/data_access/message_dal.py:305-311 | the loop gives the swept messages and counts those it marks |
| MessageDal.ReadThreadKeepsIds | campus_resource_hub/src/data_access/message_dal.py:305-314 | the sweep keeps the keys valid |
| MessageDal.ReadThreadIdempotent | campus_resource_hub/src/data_access/message_dal.py:291-316 | a second sweep of the same thread, at any time, changes nothing |
| MessageDal.UnreadCount | campus_resource_hub/src/data_access/message_dal.py:322-336 | the unread count is at most the number of messages |
| MessageDal.UnreadCountIsQuery | campus_resource_hub/src/data_access/message_dal.py:336 | the count is the number of unread messages addressed to the user |
| MessageDal.ReplaceAbsent | campus_resource_hub/src/data_access/message_dal.py:250-253 | writing back a key the table does not hold changes nothing |
| MessageDal.MarkReadLowersUnread | campus_resource_hub/src/data_access/message_dal.py:231-336 | marking one of the user's unread messages read lowers the user's unread count by exactly one |
| MessageDal.ApplyMessageKeeps | campus_resource_hub/src/data_access/message_dal.py:392-395 | the update changes only subject, body and thread; with no whitelisted key it changes nothing |
| MessageDal.MessageTable.constructor | campus_resource_hub/src/data_access/message_dal.py:17-65 | the table starts empty, with key 1 next |
| MessageDal.MessageTable.SendMessage | campus_resource_hub/src/data_access/message_dal.py:17-65 | a message to oneself is refused and nothing is stored; otherwise one unread message with the next key and the resolved thread is appended |
| MessageDal.MessageTable.MarkAsReadById | campus_resource_hub/src/data_access/message_dal.py:231-255 | an unknown id is refused and nothing changes; otherwise exactly that message is marked read once |
| MessageDal.MessageTable.MarkAsUnreadById | campus_resource_hub/src/data_access/message_dal.py:261-285 | an unknown id is refused and nothing changes; otherwise exactly that message is marked unread once |
| MessageDal.MessageTable.MarkThreadAsRead | campus_resource_hub/src/data_access/message_dal.py:291-316 | the table becomes the swept table and the answer is the number of unread messages the thread had |
| MessageDal.MessageTable.UpdateMessage | campus_resource_hub/src/data_access/message_dal.py:372-398 | an unknown id is refused and nothing changes; otherwise exactly that message gets the whitelisted fields in order |
| MessageDal.MessageTable.DeleteMessage | campus_resource_hub/src/data_access/message_dal.py:404-424 | the answer is whether the key was stored; that message is removed and the rest keep their order |
| MessageDal.MessageTable.GetUnreadCount | campus_resource_hub/src/data_access/message_dal.py:322-336 | the answer is the user's unread count |
| MessagesController.EntryFor | campus_resource_hub/src/controllers/messages.py:52-63 | intended listing (see Findings, messages.py:56): an entry carries the thread key (the message's thread or else its own key), the partner's id, `full_name` and email, a preview of at most 100 characters, read when the message is read or was sent by the viewer, and whether the viewer sent it |
| MessagesController.CollectSeen | campus_resource_hub/src/controllers/messages.py:37-45 | intended listing (see Findings, messages.py:56): after the loop the seen set is exactly the set of partners of the page's messages, including partners who are not users |
| MessagesController.CollectSound | campus_resource_hub/src/controllers/messages.py:37-63 | every entry's partner was seen, and every entry is built from the first message on the page with that partner |
| MessagesController.CollectDistinct | campus_resource_hub/src/controllers/messages.py:41-45 | no partner appears twice in the conversation list |
| MessagesController.CollectComplete | campus_resource_hub/src/controllers/messages.py:37-63 | intended listing (see Findings, messages.py:56): every partner who exists as a user is listed, with the entry built from the first message with that partner |
| MessagesController.MissingUsersSkipped | campus_resource_hub/src/controllers/messages.py:48-50 | a partner missing from the user table never appears in the list |
| MessagesController.ListMessages | campus_resource_hub/src/controllers/messages.py:18-69 | intended listing (see Findings, messages.py:56): the listing is the loop's result over one page of the user's conversations, with distinct partners who all exist as users |
| MessagesController.CollectEntries | campus_resource_hub/src/controllers/messages.py:34-63 | intended listing (see Findings, messages.py:56): the loop computes the same entries as the recursive definition, with distinct partners who all exist as users |
| MessagesController.CollectAsWritten | campus_resource_hub/src/controllers/messages.py:37-63 | the loop as written: reading `other_user.name` raises at the first unseen partner who exists; its meaning is stated by `CollectAsWrittenRaises` |
| MessagesController.CollectAsWrittenRaises | campus_resource_hub/src/controllers/messages.py:37-63 | the written loop raises exactly when some message on the page has a partner who exists; otherwise it has seen the same partners as the intended loop and listed nothing, and the intended list is empty too |
| MessagesController.ListMessagesAsWritten | campus_resource_hub/src/controllers/messages.py:18-76 | as written, listing conversations answers 500 exactly when some message on the page has an existing partner, and otherwise an empty list |
| MessagesController.ListingRaisesForExistingPartner | campus_resource_hub/src/controllers/messages.py:56 | one message from user 1 to an existing user 2 makes the written loop raise, where the intended listing has one entry |
| MessagesController.FirstIsNewest | campus_resource_hub/src/controllers/messages.py:19-21 | the first message with a partner on a page is at least as new as any later message on that page |
| MessagesController.MissingUserStaysSkipped | campus_resource_hub/src/controllers/messages.py:45-50 | once a partner is marked seen, a later message with that partner changes nothing, even when the first lookup failed |
| MessagesController.Participants | campus_resource_hub/src/controllers/messages.py:92-95 | the participants are exactly the senders and recipients of the thread's messages |
| MessagesController.CollectParticipants | campus_resource_hub/src/controllers/messages.py:92-95 | the loop gathers exactly the participant set |
| MessagesController.ThreadDecision | campus_resource_hub/src/controllers/messages.py:80-98 | the answer of `get_thread`; `ThreadDecisionCases` states when each answer is given |
| MessagesController.ThreadDecisionCases | campus_resource_hub/src/controllers/messages.py:86-98 | the thread view answers 404 exactly when no stored message is in the thread, 403 exactly when there is one but the viewer sent or received none of them, and 200 otherwise |
| MessagesController.ThreadMessagesMembers | campus_resource_hub/src/data_access/message_dal.py:119-138 | the unpaged thread query returns exactly the stored messages of that thread |
| MessagesController.ThreadGuards | campus_resource_hub/src/controllers/messages.py:88-98 | for any list holding exactly the thread's messages, the emptiness and membership guards mean no message in the thread and the viewer in none of them |
| MessagesController.GetThread | campus_resource_hub/src/controllers/messages.py:79-105 | the thread view returns the guard's status and, on success, all the thread's messages oldest first, and nothing otherwise |
| MessagesController.GetMessageDecision | campus_resource_hub/src/controllers/messages.py:126-149 | reading a message answers 404 exactly when it does not exist, 403 exactly when the reader is neither its sender nor its recipient, and 200 otherwise |
| MessagesController.StrippedBody | campus_resource_hub/src/controllers/messages.py:180 | an absent body reads as empty, a string body is stripped, and a value without `strip` fails |
| MessagesController.SubjectOf | campus_resource_hub/src/controllers/messages.py:182 | an absent subject defaults to `Message`, a null one stays null, and a given one is kept |
| MessagesController.CreateMessageDecision | campus_resource_hub/src/controllers/messages.py:160-218 | the guard chain of `create_message` and the message it would send; `CreateMessageAccepts` and `CreateMessageGuardOrder` state its meaning |
| MessagesController.CreateMessageAccepts | campus_resource_hub/src/controllers/messages.py:171-218 | an accepted send has a text body whose stripped form has 1 to 5000 characters, a nonzero recipient that exists, and the request's thread |
| MessagesController.CreateMessageGuardOrder | campus_resource_hub/src/controllers/messages.py:180-210 | sending fails with 500 exactly for a non-text body, with 404 exactly for an otherwise valid request to an unknown recipient, and with 400 exactly for a missing recipient or an empty or over-long stripped body |
| MessagesController.BlankBodyRejected | campus_resource_hub/src/controllers/messages.py:191-195 | a body made only of white space is refused with 400 |
| MessagesController.CreateMessageEndpoint | campus_resource_hub/src/controllers/messages.py:158-236 | a refused send stores nothing and returns the guard's status, a message to oneself is refused with 400, and an accepted one appends exactly the new message with its resolved thread and returns 201 |
| MessagesController.MarkReadDecision | campus_resource_hub/src/controllers/messages.py:243-257 | marking answers 404 exactly when the message does not exist, 403 exactly when the caller is not its recipient, and 200 otherwise |
| MessagesController.MarkReadEndpoint | campus_resource_hub/src/controllers/messages.py:238-272 | on success exactly that message is replaced by its read form stamped now, and otherwise the table is unchanged |
| MessagesController.MarkReadUnreadCount | campus_resource_hub/src/controllers/messages.py:238-265 | a successful mark lowers the recipient's unread count by one when the message was unread and leaves it as it was otherwise |
| MessagesController.MarkReadKeepsUnreadCount | campus_resource_hub/src/models/models.py:260-263 | stamping an already read message again leaves every user's unread count unchanged |
| MessagesController.DeleteMessageDecisionAsWritten | campus_resource_hub/src/controllers/messages.py:288 | as written, deleting an existing message never answers 403, whoever asks |
| MessagesController.DeleteAsWrittenNeverForbids | campus_resource_hub/src/controllers/messages.py:288 | a student who neither sent the message nor is an admin deletes it |
| MessagesController.DeleteMessageDecision | campus_resource_hub/src/controllers/messages.py:274-300 | with the intended guard, deleting answers 404 exactly for a missing message, 403 exactly when the caller is neither its sender nor an admin, and 204 otherwise |
| MessagesController.DeleteDecisionsAgree | campus_resource_hub/src/controllers/messages.py:288 | the written and intended guards agree exactly when the message is missing or the caller is its sender or an admin |
| MessagesController.DeleteMessageEndpoint | campus_resource_hub/src/controllers/messages.py:274-307 | with the intended guard (see Findings, messages.py:288): on 204 exactly the rows with that key are removed, and otherwise the table is unchanged |
| NotificationService.MessagePreview | campus_resource_hub/src/services/notification_service.py:76 | a body of at most 100 characters is its own preview; a longer one is cut to its first 100 characters followed by `...` |
| NotificationService.MessagePreviewEqual | campus_resource_hub/src/services/notification_service.py:76 | two short bodies share a preview exactly when they are equal, two long ones exactly when their first 100 characters agree, and a short and a long body never do |
| NotificationService.MessagePreviewPrefix | campus_resource_hub/src/services/notification_service.py:76 | the preview begins with the body's first characters, up to 100 of them |
| NotificationService.SenderName | campus_resource_hub/src/services/notification_service.py:70 | the sender's full name, or `Unknown User` when there is no sender |
| NotificationService.ThreadUrl | campus_resource_hub/src/services/notification_service.py:77 | the link is `/messages/thread/` followed by the message's thread key, or its own key when it has no thread |
| NotificationService.ThreadUrlInjective | campus_resource_hub/src/services/notification_service.py:77 | two messages link to the same page exactly when they resolve to the same thread |
| NotificationService.ResourceName | campus_resource_hub/src/services/notification_service.py:142 | the resource's name, or `A Resource` when the booking has none |
| NotificationService.ReasonText | campus_resource_hub/src/services/notification_service.py:171 | an empty reason adds nothing, and any other one adds ` Reason: ` and the reason |
| NotificationService.ReasonTextRoundTrip | campus_resource_hub/src/services/notification_service.py:171 | the reason can be read back from the text it produces |
| NotificationService.DenialDescription | campus_resource_hub/src/services/notification_service.py:143-145 | the denial text is the base sentence followed by the reason text, and the base sentence alone without a reason |
| NotificationService.DenialReasonRecoverable | campus_resource_hub/src/services/notification_service.py:143-145 | a denial text starts with the base sentence, and the reason given can be read back from the rest |
| NotificationService.CancellationRecipients | campus_resource_hub/src/services/notification_service.py:174-198 | the requester is told first, and the owner second exactly when someone other than the owner cancelled |
| NotificationService.OwnerToldUnlessOwnerCancelled | campus_resource_hub/src/services/notification_service.py:186-187 | the owner hears of it exactly when someone else cancelled or the owner is the requester, and only the requester is told when the owner cancelled |
| NotificationService.NotificationStore.constructor | campus_resource_hub/src/services/notification_service.py:15-51 | the store starts empty |
| NotificationService.NotificationStore.CreateNotification | campus_resource_hub/src/services/notification_service.py:15-51 | the new notification has the given columns and is unread, and it is appended to the store |
| NotificationService.NotificationStore.NotifyNewMessage | campus_resource_hub/src/services/notification_service.py:57-80 | the recipient gets one unread new-message notification naming the sender, with the body's preview and the thread link, and it is appended to the store |
| NotificationService.NotificationStore.NotifyBookingDenied | campus_resource_hub/src/services/notification_service.py:131-156 | the requester gets one denial notification, sent by the owner, with the reason in the description; with no resource the call fails and stores nothing |
| NotificationService.NotificationStore.NotifyBookingCancelled | campus_resource_hub/src/services/notification_service.py:158-198 | the requester's notification is stored first and the owner's follows exactly when the owner did not cancel; with no resource the requester's is stored and then the call fails |
| CalendarService.EscapeIcalText | campus_resource_hub/src/services/calendar_service.py:120-127 | the four chained replacements of `_escape_ical_text`; `EscapeIsOnePass`, `UnescapeEscape` and `EscapeShape` state their meaning |
| CalendarService.ReplaceChar | campus_resource_hub/src/services/calendar_service.py:123-126 | replacing a character the text does not hold leaves the text unchanged |
| CalendarService.ReplaceCharConcat | campus_resource_hub/src/services/calendar_service.py:123-126 | replacing a character distributes over concatenation |
| CalendarService.EscapeChar | campus_resource_hub/src/services/calendar_service.py:120-127 | each special character becomes a two-character escape starting with a backslash, and any other character is kept |
| CalendarService.EscapeIsOnePass | campus_resource_hub/src/services/calendar_service.py:120-127 | the four chained replacements equal one left-to-right pass that escapes each character on its own |
| CalendarService.EscapeConcat | campus_resource_hub/src/services/calendar_service.py:120-127 | escaping distributes over concatenation |
| CalendarService.EscapeOneChar | campus_resource_hub/src/services/calendar_service.py:120-127 | on a single character the chained replacements give that character's escape |
| CalendarService.UnescapeEscape | campus_resource_hub/src/services/calendar_service.py:120-127 | reading the escapes back gives the original text: escaping loses nothing |
| CalendarService.UnescapeEach | campus_resource_hub/src/services/calendar_service.py:120-127 | reading back the one-pass escape gives the original text |
| CalendarService.EscapeShape | campus_resource_hub/src/services/calendar_service.py:120-127 | the escaped text has one extra character per special one, no raw newline, a backslash before every comma and semicolon, and text without special characters is unchanged |
| CalendarService.EscapeEachShape | campus_resource_hub/src/services/calendar_service.py:120-127 | the one-pass escape has the same shape as the chained one |
| CalendarService.EscapeEachLength | campus_resource_hub/src/services/calendar_service.py:120-127 | the one-pass escape adds exactly one character per special character |
| CalendarService.EscapeEachNoNewline | campus_resource_hub/src/services/calendar_service.py:126 | the escaped text holds no raw newline |
| CalendarService.EscapeEachGuarded | campus_resource_hub/src/services/calendar_service.py:124-125 | every comma and semicolon of the escaped text follows a backslash |
| CalendarService.EscapeEachPlain | campus_resource_hub/src/services/calendar_service.py:120-127 | text without special characters comes back unchanged |
| CalendarService.IcalStatus | campus_resource_hub/src/services/calendar_service.py:56-62 | pending maps to TENTATIVE, confirmed and completed to CONFIRMED, cancelled to CANCELLED, and any other status to CONFIRMED |
| CalendarService.IcalStatusCases | campus_resource_hub/src/services/calendar_service.py:56-62 | the event status is one of three values: tentative exactly for a pending booking, cancelled exactly for a cancelled one, and confirmed otherwise |
| CalendarService.Uid | campus_resource_hub/src/services/calendar_service.py:33 | the UID is `booking-`, the booking key, and `@campus-resource-hub`, in that order |
| CalendarService.UidInjective | campus_resource_hub/src/services/calendar_service.py:33 | distinct bookings get distinct UIDs |
| CalendarService.FormatIcalDateTime | campus_resource_hub/src/services/calendar_service.py:28-30 | a date-time is rendered as fifteen characters, digits except for a `T` at position 8, with no zone suffix |
| CalendarService.FormatParseRoundTrip | campus_resource_hub/src/services/calendar_service.py:28-30 | every field of the date-time can be read back from its position |
| CalendarService.EventTimes | campus_resource_hub/src/services/calendar_service.py:71-74 | the event's identity and times take four lines |
| CalendarService.EventText | campus_resource_hub/src/services/calendar_service.py:75-80 | the event's text properties take six lines |
| CalendarService.AlarmLines | campus_resource_hub/src/services/calendar_service.py:81-85 | the reminder takes five lines |
| CalendarService.GenerateIcal | campus_resource_hub/src/services/calendar_service.py:16-87 | the calendar text as written, with the summary unescaped; `CalendarLinesAt`, `IcalLinesAsWritten` and `NewlineBreaksSummary` state its meaning |
| CalendarService.CalendarLines | campus_resource_hub/src/services/calendar_service.py:65-87 | the calendar has 23 lines |
| CalendarService.CalendarLinesAt | campus_resource_hub/src/services/calendar_service.py:65-87 | the calendar opens with `BEGIN:VCALENDAR`, closes with `END:VCALENDAR`, and carries the summary on the SUMMARY and alarm DESCRIPTION lines |
| CalendarService.StripKeepsCalendar | campus_resource_hub/src/services/calendar_service.py:87 | the closing strip changes nothing, because the text starts and ends with a letter |
| CalendarService.LinesFreeOfNewline | campus_resource_hub/src/services/calendar_service.py:65-87 | when the summary has no newline, no line of the calendar has one |
| CalendarService.EscapedFieldsFree | campus_resource_hub/src/services/calendar_service.py:76-77 | the DESCRIPTION and LOCATION lines hold no raw newline, whatever the text |
| CalendarService.IcalLinesAsWritten | campus_resource_hub/src/services/calendar_service.py:75 | as written, the file splits back into exactly its 23 lines if and only if the resource name has no newline |
| CalendarService.ReadsBackWithoutNewline | campus_resource_hub/src/services/calendar_service.py:65-87 | a resource name without a newline gives a file that splits back into its 23 lines |
| CalendarService.NewlineBreaksSummary | campus_resource_hub/src/services/calendar_service.py:75 | a newline anywhere in the resource name breaks the file's lines |
| CalendarService.SplitNeverNewline | campus_resource_hub/src/services/calendar_service.py:87 | a line that holds a newline is never produced by splitting on newlines |
| CalendarService.IcalSummaryNotEscaped | campus_resource_hub/src/services/calendar_service.py:75 | a resource called `Lab\nRoom` gives a file that does not split back into its lines |
| CalendarService.GenerateIcalEscaped | campus_resource_hub/src/services/calendar_service.py:16-87 | the corrected calendar text, with the summary escaped (see Findings, calendar_service.py:75-83); `IcalLinesEscaped` states its meaning |
| CalendarService.IcalLinesEscaped | campus_resource_hub/src/services/calendar_service.py:75-83 | with the summary escaped, the file splits back into exactly its 23 lines for any resource name, the SUMMARY line carries the escaped summary, and the summary can be read back from it |
| ResourcesController.AllowedFile | campus_resource_hub/src/controllers/resources.py:34-36 | the extension test of `allowed_file`; `AllowedFileIgnoresCase` states that it ignores letter case |
| ResourcesController.AllowedFileIgnoresCase | campus_resource_hub/src/controllers/resources.py:34-36 | whether an upload is allowed does not depend on the letter case of its extension |
| ResourcesController.UpperCaseJpgAllowed | campus_resource_hub/src/controllers/resources.py:34-36 | `photo.JPG` is accepted |
| ResourcesController.GifRefused | campus_resource_hub/src/controllers/resources.py:34-36 | `photo.gif` is refused |
| ResourcesController.FiltersCompose | campus_resource_hub/src/controllers/resources.py:106-116 | the three filters applied in turn keep exactly the published resources that pass every filter that is set, in table order |
| ResourcesController.TotalPages | campus_resource_hub/src/controllers/resources.py:122 | the page count of the listing; `TotalPagesIsCeiling` states that it is the ceiling of the matches over twelve |
| ResourcesController.TotalPagesIsCeiling | campus_resource_hub/src/controllers/resources.py:122 | there are no pages exactly when there are no matches, and otherwise the page count is the ceiling of the total over twelve |
| ResourcesController.PageSliceContents | campus_resource_hub/src/controllers/resources.py:102-119 | a page numbered from 1 holds the next twelve matches, or what is left of them, and never more than twelve |
| ResourcesController.HasNextIffMore | campus_resource_hub/src/controllers/resources.py:122-140 | from page 1 on, there is a next page exactly when matches remain after this page |
| ResourcesController.ItemOnItsPage | campus_resource_hub/src/controllers/resources.py:102-122 | every match appears on exactly the page its position says, and that page exists |
| ResourcesController.PageZeroEmpty | campus_resource_hub/src/controllers/resources.py:99-119 | page 0 shows nothing |
| ResourcesController.NegativePageCountsFromEnd | campus_resource_hub/src/controllers/resources.py:99-119 | a negative page is not refused: its slice counts back from the end of the matches |
| ResourcesController.ListResources | campus_resource_hub/src/controllers/resources.py:85-145 | the page `list_resources` shows; `ListingPage` and `PageSliceContents` state what it holds |
| ResourcesController.ListingPage | campus_resource_hub/src/controllers/resources.py:85-145 | the listing counts all matches, gives the ceiling page count, has a previous page exactly from page 2 on, has a next page exactly when matches remain, and shows only matches |
| ResourcesController.PublishedValues | campus_resource_hub/src/controllers/resources.py:127-129 | the values collected are exactly the non-empty values of the field over the published resources |
| ResourcesController.DropdownValues | campus_resource_hub/src/controllers/resources.py:127-129 | a dropdown list is strictly sorted and holds exactly the non-empty values of its field over the published resources |
| ResourcesController.SearchMatches | campus_resource_hub/src/controllers/resources.py:470-478 | the matches are exactly the stored resources that are published, of the requested type when one is given, and whose name or description contains the keyword in any case |
| ResourcesController.ApiSearch | campus_resource_hub/src/controllers/resources.py:458-490 | a stripped keyword under two characters gives no results; otherwise at most ten results come back, each describing a published resource the search matches |
| ResourcesController.SearchFor | campus_resource_hub/src/controllers/resources.py:467-478 | the search on stripped values gives nothing for a short keyword, at most ten results, and only matches |
| ResourcesController.SearchComplete | campus_resource_hub/src/controllers/resources.py:475-478 | when there are at most ten matches, every match is in the answer |
| ResourcesController.ReportOrdered | campus_resource_hub/src/controllers/resources.py:226-236 | one check reports at most its own message |
| ResourcesController.FieldReportsOrdered | campus_resource_hub/src/controllers/resources.py:226-236 | the four field checks report in their order, before any other check |
| ResourcesController.ReportsOrdered | campus_resource_hub/src/controllers/resources.py:226-256 | whatever the checks give, the messages come in check order, so none repeats |
| ResourcesController.FieldReportsHas | campus_resource_hub/src/controllers/resources.py:226-236 | a field message is reported exactly when its check fails |
| ResourcesController.CapacityReportsHas | campus_resource_hub/src/controllers/resources.py:238-247 | a capacity message is reported exactly when the field is set and `int()` fails, or gives a value below the limit |
| ResourcesController.ReportsHas | campus_resource_hub/src/controllers/resources.py:226-256 | a message is reported exactly when the check that reports it fails |
| ResourcesController.ReportsEmpty | campus_resource_hub/src/controllers/resources.py:226-257 | a form is accepted exactly when every check passes |
| ResourcesController.ErrorsExact | campus_resource_hub/src/controllers/resources.py:226-257 | create and edit each report every failed check once, in check order, and nothing else |
| ResourcesController.EditLaxerThanCreate | campus_resource_hub/src/controllers/resources.py:351-356 | a form create accepts is accepted by edit too, and a capacity of 0 fails create but passes edit |
| ResourcesController.RunChecks | campus_resource_hub/src/controllers/resources.py:226-256 | the loop-free validation appends exactly the reported messages and sets the capacity to `int()` of a set, parsable field, and to the starting value otherwise |
| ResourcesController.ValidateCreate | campus_resource_hub/src/controllers/resources.py:216-256 | create's validation gives exactly create's messages and the capacity it would store |
| ResourcesController.ValidateEdit | campus_resource_hub/src/controllers/resources.py:327-370 | edit's validation gives exactly edit's messages, and a capacity that falls back to the current one |
| ResourcesController.FindResource | campus_resource_hub/src/controllers/resources.py:174-177 | the lookup finds a stored resource with that key, and nothing exactly when no resource has it |
| ResourcesController.RefusedAsWritten | campus_resource_hub/src/controllers/resources.py:315 | as written, the owner guard refuses nobody |
| ResourcesController.StrangerPassesGuardAsWritten | campus_resource_hub/src/controllers/resources.py:315 | a student who did not create the resource passes the guard as written |
| ResourcesController.Refused | campus_resource_hub/src/controllers/resources.py:315 | with the intended guard, only the creator or an admin may change a resource |
| ResourcesController.GuardsAgree | campus_resource_hub/src/controllers/resources.py:423 | the written and intended guards agree exactly for the creator and for admins |
| ResourcesController.DetailFlagsAsWritten | campus_resource_hub/src/controllers/resources.py:185-186 | as written, every signed-in viewer is flagged as admin, and the owner flag is set exactly for the signed-in creator |
| ResourcesController.StudentFlaggedAdminAsWritten | campus_resource_hub/src/controllers/resources.py:186 | a signed-in student is shown the page as an admin |
| ResourcesController.Flags | campus_resource_hub/src/controllers/resources.py:185-186 | with the intended test, the admin flag is set exactly for a signed-in admin, and the owner flag exactly for the signed-in creator |
| ResourcesController.DetailFlagsDiffer | campus_resource_hub/src/controllers/resources.py:186 | the written and intended flags differ exactly for a signed-in viewer who is not an admin |
| ResourcesController.ReplaceResource | campus_resource_hub/src/controllers/resources.py:388-397 | writing a resource back replaces exactly the row with that key and keeps the others |
| ResourcesController.CreatedMeetsChecks | campus_resource_hub/src/controllers/resources.py:273-283 | a stored resource has a name of at least 3 characters, a description of at least 10, a type and a location, any capacity of at least 1, is published, and has the caller as creator |
| ResourcesController.EditedMeetsChecks | campus_resource_hub/src/controllers/resources.py:388-397 | an accepted edit keeps the key, creator, status and approval flag, meets edit's field checks, and keeps the image when none is chosen |
| ResourcesController.CreateDecision | campus_resource_hub/src/controllers/resources.py:205-290 | create fails exactly when some check fails, with those messages, and otherwise stores the created record under the next key |
| ResourcesController.EditDecision | campus_resource_hub/src/controllers/resources.py:301-400 | with the intended guard (see Findings, resources.py:315): edit answers not-found exactly for a missing key, forbidden exactly when the guard refuses, rejected with edit's messages exactly when a check fails, and otherwise the edited record |
| ResourcesController.DeleteDecision | campus_resource_hub/src/controllers/resources.py:411-432 | with the intended guard (see Findings, resources.py:423): delete answers not-found exactly for a missing key, forbidden exactly when the guard refuses, and otherwise removes the stored record |
| ResourcesController.ResourceTable.constructor | campus_resource_hub/src/models/models.py:105-108 | the table starts empty with key 1 next |
| ResourcesController.ResourceTable.Add | campus_resource_hub/src/controllers/resources.py:273-287 | the record is stored under the next key, which then advances |
| ResourcesController.ResourceTable.Replace | campus_resource_hub/src/controllers/resources.py:397 | exactly the row with the record's key is replaced |
| ResourcesController.ResourceTable.Remove | campus_resource_hub/src/controllers/resources.py:428-429 | every row with that key is removed and the others kept in order |
| ResourcesController.CreateResource | campus_resource_hub/src/controllers/resources.py:205-295 | the outcome is create's decision, and the table grows by exactly the stored record when it succeeds and is unchanged otherwise |
| ResourcesController.EditResource | campus_resource_hub/src/controllers/resources.py:301-404 | with the intended guard (see Findings, resources.py:315): the outcome is edit's decision, and only a successful edit replaces the row |
| ResourcesController.DeleteResource | campus_resource_hub/src/controllers/resources.py:411-436 | with the intended guard (see Findings, resources.py:423): the outcome is delete's decision, and only a successful delete removes the row, after which no row has that key |
| ResourcesController.AppendKeepsValid | campus_resource_hub/src/controllers/resources.py:273-287 | appending a row with the next key keeps the keys valid |
| ResourcesController.ReplaceKeepsValid | campus_resource_hub/src/controllers/resources.py:388-397 | replacing a row by one with the same key keeps the keys valid |
| ResourcesController.FilterKeepsValid | campus_resource_hub/src/controllers/resources.py:428-429 | removing rows keeps the keys valid |
| ResourceImages.NamedMatch | campus_resource_hub/static/js/resource-images.js:96-103 | the match is the first entry, in table order, whose key occurs in the name, and there is none exactly when no key occurs in it |
| ResourceImages.DigitRun | campus_resource_hub/static/js/resource-images.js:111 | the run of digits stays inside the text |
| ResourceImages.MatchEnd | campus_resource_hub/static/js/resource-images.js:111 | a match of `w=<digits>&h=<digits>` is at least seven characters long and stays inside the text |
| ResourceImages.FirstSizeMatch | campus_resource_hub/static/js/resource-images.js:111-113 | the match found starts at or after the given position and is a real match there |
| ResourceImages.FindNamed | campus_resource_hub/static/js/resource-images.js:96-103 | the loop finds the same entry as the recursive definition: the first key contained in the name |
| ResourceImages.ApplySize | campus_resource_hub/static/js/resource-images.js:111-114 | the rewrite of one URL equals the size rewrite defined on values |
| ResourceImages.GetResourceStockImage | campus_resource_hub/static/js/resource-images.js:82-117 | with the intended type and size lookups (see Findings, resource-images.js:107 and :112): the URL is the chosen photograph's table URL rewritten to the requested size, with type `other`, no name and size `large` by default |
| ResourceImages.NameBeatsType | campus_resource_hub/static/js/resource-images.js:96-103 | a name containing a key gets the photograph of the first such key, whatever the type |
| ResourceImages.TypeFallback | campus_resource_hub/static/js/resource-images.js:106-108 | with no name, or no key in the name, a known type gets its photograph and any other type gets that of `other` |
| ResourceImages.ChosenId | campus_resource_hub/static/js/resource-images.js:93-108 | the photograph the name and type lookups choose; `ChosenInTables` states that it is always one of the tables' |
| ResourceImages.ChosenInTables | campus_resource_hub/static/js/resource-images.js:93-108 | the chosen photograph is always one of the tables', so the URL is never null |
| ResourceImages.TablesHaveOther | campus_resource_hub/static/js/resource-images.js:71-72 | the type table has an `other` entry |
| ResourceImages.UnknownSizeUnchanged | campus_resource_hub/static/js/resource-images.js:112 | in the intended rewrite, a size outside the size table leaves the URL unchanged; as written, a size naming an inherited object member does not (see Findings, resource-images.js:112) |
| ResourceImages.DigitRunIs | campus_resource_hub/static/js/resource-images.js:111 | a run of digits followed by a non-digit is measured exactly |
| ResourceImages.PhotoIdHasNoW | campus_resource_hub/static/js/resource-images.js:9-72 | a photograph id never contains `w` |
| ResourceImages.QueryLayout | campus_resource_hub/static/js/resource-images.js:9-72 | each table URL has its size query right after the `?` |
| ResourceImages.NoMatchBeforeQuery | campus_resource_hub/static/js/resource-images.js:111 | no size match starts before the `?` of a stock URL |
| ResourceImages.MatchAtIs | campus_resource_hub/static/js/resource-images.js:111 | `w=<w>&h=<h>` followed by no digit is a match ending after the height |
| ResourceImages.LeftmostMatch | campus_resource_hub/static/js/resource-images.js:111-113 | a match with none before it is the leftmost one |
| ResourceImages.SkipNonMatch | campus_resource_hub/static/js/resource-images.js:111-113 | a position where no match starts is skipped |
| ResourceImages.FirstMatchIsQuery | campus_resource_hub/static/js/resource-images.js:111-113 | in a URL of that layout, the first size match is the one right after the `?` |
| ResourceImages.Resize | campus_resource_hub/static/js/resource-images.js:111-114 | the intended size rewrite; `ResizeQuery`, `ResizeSized`, `ResizeIdempotent` and `UnknownSizeUnchanged` state its meaning |
| ResourceImages.ResizeQuery | campus_resource_hub/static/js/resource-images.js:111-114 | rewriting such a URL to a known size replaces exactly the two numbers |
| ResourceImages.ResizeSized | campus_resource_hub/static/js/resource-images.js:111-114 | a stock URL at any size becomes the same photograph at the requested size's width and height |
| ResourceImages.SizeParamsDigits | campus_resource_hub/static/js/resource-images.js:87-91 | every size in the table is a pair of digit strings |
| ResourceImages.ResizeIdempotent | campus_resource_hub/static/js/resource-images.js:111-114 | rewriting a stock URL twice to one size is the same as rewriting it once |
| ResourceImages.DefaultSizeKeepsStockUrl | campus_resource_hub/static/js/resource-images.js:82-91 | with the default size the table URL comes back unchanged |
| ResourceImages.StockUrlAtSize | campus_resource_hub/static/js/resource-images.js:87-114 | a table URL at a known size is the same photograph at that size's width and height |
| ResourceImages.StockImageAsWritten | campus_resource_hub/static/js/resource-images.js:106-114 | as written, when no key occurs in the name and the type names an inherited object member, the call throws; otherwise the result is the written size rewrite of the chosen photograph |
| ResourceImages.AsWrittenAgreesElsewhere | campus_resource_hub/static/js/resource-images.js:106-114 | unless the written type lookup finds an inherited member, the code as written rewrites the photograph the intended lookup chooses, and for a size no object inherits it returns the intended URL |
| ResourceImages.ConstructorTypeThrows | campus_resource_hub/static/js/resource-images.js:107 | a resource of type `constructor` with no name makes the code as written throw |
| ResourceImages.SizeReplacementAsWritten | campus_resource_hub/static/js/resource-images.js:87-113 | what `sizeParams[size]` puts in place of the size query: a table size its text, `undefined` nothing, and each inherited member what JavaScript makes of it; its effect is stated by `ResizeAsWrittenAgrees`, `ToStringSizeAsWritten` and `ValueOfSizeThrows` |
| ResourceImages.ResizeAsWritten | campus_resource_hub/static/js/resource-images.js:111-114 | the written size rewrite: the first `w=..&h=..`, if any, is replaced by the size's replacement, or the call throws; its effect is stated by the lemmas below |
| ResourceImages.ResizeAsWrittenAgrees | campus_resource_hub/static/js/resource-images.js:111-114 | for a size no object inherits, the written rewrite is the intended one |
| ResourceImages.StockUrlMatch | campus_resource_hub/static/js/resource-images.js:111 | in a table URL the first `w=..&h=..` is the size query right after the `?` |
| ResourceImages.ToStringSizeAsWritten | campus_resource_hub/static/js/resource-images.js:112-113 | size `toString` puts `[object Undefined]` where a table URL's size query was |
| ResourceImages.ValueOfSizeThrows | campus_resource_hub/static/js/resource-images.js:112-113 | size `valueOf` makes the rewrite of a table URL throw |
| ResourceImages.OtherIdIsPhotoId | campus_resource_hub/static/js/resource-images.js:72 | the `other` photograph id consists of hexadecimal digits and dashes, so its size query is found |
| ResourceImages.UnknownTypeToStringSize | campus_resource_hub/static/js/resource-images.js:82-114 | with no type, no name and size `toString`, the written code returns the `other` photograph with `[object Undefined]` in place of its size |
| BuildingNames.LeadingNonDigits | campus_resource_hub/test_building_names.py:11 | the run is the longest prefix of the address without a digit: it is a prefix, holds no digit, and is followed by a digit or the end |
| BuildingNames.CommaCandidate | campus_resource_hub/test_building_names.py:7-8 | with a comma, the building part is the stripped text before the first comma, whatever follows |
| BuildingNames.RunCandidate | campus_resource_hub/test_building_names.py:10-12 | without a comma, the building part is the stripped run of non-digits the address starts with |
| BuildingNames.RunIsLongestPrefix | campus_resource_hub/test_building_names.py:11 | a run of non-digits followed by a digit or the end is exactly what the pattern captures |
| BuildingNames.DigitFirstCandidate | campus_resource_hub/test_building_names.py:12 | an address that starts with a digit and has no comma is used whole, stripped |
| BuildingNames.FirstBranch | campus_resource_hub/test_building_names.py:15-34 | the branch found accepts the building part and no earlier branch does, or no branch accepts it |
| BuildingNames.Normalize | campus_resource_hub/test_building_names.py:15-36 | the answer is either the building part unchanged or one of the ten canonical names |
| BuildingNames.ExtractBuildingName | campus_resource_hub/test_building_names.py:3-6 | there is no answer exactly when the address is missing or empty |
| BuildingNames.FirstMatchWins | campus_resource_hub/test_building_names.py:15-34 | when branch `k` is the first to accept the lower-cased building part, the answer is branch `k`'s name |
| BuildingNames.FirstBranchIs | campus_resource_hub/test_building_names.py:15-34 | the search from any earlier branch stops at the first accepting one |
| BuildingNames.NoMatchUnchanged | campus_resource_hub/test_building_names.py:35-36 | when no branch accepts, the building part comes back as extracted |
| BuildingNames.NormalizeIgnoresCase | campus_resource_hub/test_building_names.py:15-34 | two spellings that differ only in letter case normalise to the same name, or both come back as written |
| BuildingNames.MsbAnywhere | campus_resource_hub/test_building_names.py:27-28 | `msb` anywhere in the building part always gives one of the first seven names |
| BuildingNames.ImuAlone | campus_resource_hub/test_building_names.py:19-20 | a building part that is `imu` in any case gives the Indiana Memorial Union |
| BuildingNames.NoEarlierMatchAll | campus_resource_hub/test_building_names.py:15-34 | the step-by-step form of "no earlier branch accepts" implies it for every earlier branch |
| BuildingNames.SampleNormalizes | campus_resource_hub/test_building_names.py:7-34 | an address whose stripped building part is first accepted by branch `k` gives branch `k`'s name |
| BuildingNames.HermanWellsSample | campus_resource_hub/test_building_names.py:40 | `Herman B Wells Library,` followed by anything gives `Wells Library` |
| BuildingNames.WellsSample | campus_resource_hub/test_building_names.py:41 | `Wells Library,` followed by anything gives `Wells Library` |

## Left out

- Persistence: sessions, commits, rollbacks and the `SQLAlchemyError` handlers that answer 500. Every table operation is modelled as succeeding.
- The user and resource data-access wrappers: the model keeps users as a map or a sequence, and resources as a class of rows.
- Cascading deletes and foreign keys: deleting a resource does not remove its bookings or reviews in this model.
- The check-then-insert race between the conflict check and the insert of a booking: the model is sequential.
- Date parsing (`fromisoformat`), `utcnow()` and `strftime` on real dates. Times are integers, and the clock is a parameter. `FormatIcalDateTime` takes the six fields of a date-time.
- Strings are ASCII. `lower()` and the regular expression class `\d` are modelled on ASCII letters and the ten ASCII digits. Python's `strip()` removes ASCII white space including the separators 0x1C to 0x1F; JavaScript's `trim()` removes ASCII white space without them. Unicode case mapping, non-ASCII white space and Unicode digits are not modelled.
- `int()` is modelled on an optional sign and ASCII digits, with surrounding white space stripped. Underscores between digits and non-ASCII digits, which Python also accepts, are not modelled.
- `ILIKE` and `LIKE` are modelled as case-insensitive substring tests: a `%` or `_` typed into a search keyword is a wildcard for the database but a literal character in the model.
- The database's order for rows that tie on the sort key, and the row order behind `limit(10)` in the JSON search: the model keeps table order.
- `request.args.get(..., type=int)`: an unparsable `page`, `limit` or `offset` falls back to the default in the source; the model takes the resulting integer.
- Floating point: average ratings, review statistics (`get_average_rating`, `get_review_stats`) and the duration in hours in the calendar description. The calendar's description text is a parameter.
- bcrypt hashing and checking, `secure_filename`, and writing, reading or deleting files (`save_uploaded_file`, `delete_old_image`): the hash check, the secured file name, the file size and the stored path are parameters.
- Login sessions: `login_user`, `remember`, `logout`, `load_user`, flash messages and templates. The profile and `edit_profile` views are not part of this model.
- The other booking-notification texts (`notify_booking_request`, `notify_booking_confirmed`, `notify_booking_reminder`, `notify_review_flagged`) and the unread-count and recent-notification queries of the notification service.
- Email sending, the Google Calendar and Outlook links of the calendar service (URL quoting), and the `by_type` and `by_location` redirects of the catalog.
- The review and message queries that no core rule depends on: `get_user_reviews`, `get_resource_reviews`, `get_all_reviews`, `get_conversation_between_users`, `get_inbox_messages`, `get_sent_messages`, `search_messages` and `message_count`. The review endpoints `get_resource_reviews`, `get_average_rating` and `can_review_resource`, and the messaging `unread_count` endpoint (a call of `get_unread_count`, which is modelled), are also left out.
- Recurrence, approval gating and the approver, canceller and modifier columns of a booking: no code implements them, so they are not modelled as behaviour.
- The browser side of the stock images: `setResourceStockImage`, `initializeResourceImages` and the DOM.
- ResourceImages.ResizeSized: the proof that a stock URL's size query is its first `w=..&h=..` needs every photograph id to consist of hexadecimal digits and dashes. That fact is a `requires`, met by every id in the two tables, and is not proved for each table entry.
- ResourceImages.StockUrlAtSize: the photograph-id fact is a `requires`, for the same reason as ResizeSized.
- AuthController.LoginDecision: a successful login lands by the corrected `next` guard. As written, `login` also follows a `next` starting with `//` or `/\` to another host; `AuthController.LandingAsWritten` models that guard and `AuthController.LandingDiffersOnlyOnHosts` states where the two differ (see Findings, auth.py:135).
- ResourceImages.StockImageAsWritten: in the type lookup, of the properties every JavaScript object inherits, only the two whose names are already lower case (`constructor`, `__proto__`) are modelled, because only those survive `toLowerCase()` as keys. In the size lookup, which does not lower-case, all twelve members of `Object.prototype` are modelled; a size naming an accessor or a method JavaScript cannot turn into text is modelled as a throw.
- ResourceImages.UnknownSizeUnchanged: states the intended rewrite, in which a size outside the size table leaves the URL unchanged. As written, a size naming an inherited member changes or breaks the URL; `ResourceImages.ResizeAsWritten` models that (see Findings, resource-images.js:112).
- BuildingNames.HermanWellsSample: of the five sample addresses, only the first two are proved; `BuildingNames.SampleNormalizes` states the general rule they are instances of.
- `Message.mark_as_read` is modelled on values (`Models.MarkAsRead`), applied to a row of the table, rather than as a method on a message object.
- MessagesController.CollectSeen: states the intended loop, which reads the partner's `full_name`. As written, the loop raises at `other_user.name` (see Findings, messages.py:56); `MessagesController.CollectAsWritten` models that.
- MessagesController.CollectComplete: states the intended listing; as written no existing partner is ever listed, because the loop raises first (see Findings, messages.py:56).
- MessagesController.ListMessages: states the intended listing; as written the endpoint answers 500 whenever the page has an existing partner, as `MessagesController.ListMessagesAsWritten` states.
- MessagesController.CollectEntries: computes the intended entries, with `full_name` as the display name; the written loop is `MessagesController.CollectAsWritten`.
- MessagesController.EntryFor: takes the display name from `full_name`, the attribute the written `other_user.name` evidently means.

## Findings

| source | as written | input that shows it | evidently intended | confidence | as-written member | corrected member |
|---|---|---|---|---|---|---|
| campus_resource_hub/src/controllers/messages.py:288 | `not current_user.is_admin` names the method without calling it; a bound method is truthy, so the guard never refuses | a student (user 3) deletes message 7, sent by user 1 to user 2 | only the sender or an admin may delete a message | high, not executed | MessagesController.DeleteAsWrittenNeverForbids | MessagesController.DeleteMessageDecision |
| campus_resource_hub/src/controllers/resources.py:315 | the edit guard has the same uncalled `is_admin`, so it refuses nobody | a student (user 2) edits resource 4, created by user 1 | only the creator or an admin may edit a resource | high, not executed | ResourcesController.StrangerPassesGuardAsWritten | ResourcesController.Refused |
| campus_resource_hub/src/controllers/resources.py:423 | the delete guard has the same uncalled `is_admin`, so it refuses nobody | a student (user 2) deletes resource 4, created by user 1 | only the creator or an admin may delete a resource | high, not executed | ResourcesController.StrangerPassesGuardAsWritten | ResourcesController.GuardsAgree |
| campus_resource_hub/src/controllers/resources.py:186 | `current_user.is_authenticated and current_user.is_admin` yields the bound method, so the page's admin flag is set for every signed-in viewer | a signed-in student views resource 4 | the admin flag only for administrators | high, not executed | ResourcesController.StudentFlaggedAdminAsWritten | ResourcesController.Flags |
| campus_resource_hub/src/services/calendar_service.py:75-83 | the summary goes into the SUMMARY and alarm DESCRIPTION lines unescaped, unlike the description and location | a resource named `Lab\nRoom`: the file no longer splits back into its 23 lines | the summary escaped like the other TEXT values (section 3.3.11 of RFC 5545) | medium, not executed | CalendarService.IcalSummaryNotEscaped | CalendarService.IcalLinesEscaped |
| campus_resource_hub/src/controllers/auth.py:135 | `next_page.startswith('/')` also accepts `//host`, which a browser reads as another site | logging in with `next=//evil.example` redirects off the site | follow `next` only for paths on this site | medium, not executed | AuthController.OpenRedirectAsWritten | AuthController.LandingIsLocal |
| campus_resource_hub/static/js/resource-images.js:107 | the type table is a plain object, so a type named like an inherited property finds that property; it is truthy, `imageUrl.match` is then not a function, and the call throws | type `constructor` and no name | a type that is not a key of the table falls back to `other` | medium, not executed | ResourceImages.ConstructorTypeThrows | ResourceImages.ChosenInTables |
| campus_resource_hub/static/js/resource-images.js:112 | `sizeParams[size]` on a plain object also finds inherited members: size `toString` puts the text `[object Undefined]` in place of the size query, and size `valueOf` makes the call throw | no type, no name, size `toString` | a size that is not a key of the table leaves the URL unchanged | medium, not executed | ResourceImages.UnknownTypeToStringSize | ResourceImages.UnknownSizeUnchanged |
| campus_resource_hub/src/controllers/messages.py:56 | `other_user.name` reads an attribute `User` does not define; the `AttributeError` is not a `SQLAlchemyError`, so the request fails with 500 whenever the page has a partner who exists | user 1 with one message to the existing user 2 | list each partner with their `full_name` | high, not executed | MessagesController.ListingRaisesForExistingPartner | MessagesController.CollectEntries |
