# Booking and reservation system: a Dafny model

This project models the core of a room and equipment booking system, written in
JavaScript. It has an Express back end over a MySQL database and a React front end.

The back end keeps five tables:
- users;
- resource categories;
- resources;
- bookings;
- booking attendees.

The model covers the booking ledger and its overlap-based availability check, the
route handlers that create, list and cancel bookings, and the "my bookings" merge of
owned and invited bookings. It also covers:
- the resource catalog with soft delete, and the category table with unique names;
- the user directory: registration, login, profile updates, and admin create, update,
  list and delete;
- the request validators and the dashboard statistics;
- the upload naming rules;
- the front end's time-slot picker, booking wizard, command palette, image URL rewrite,
  and admin resource and user pages.

All tables live in one `Schema.Db` object, with a `seq` field per table and the
auto-increment counters. Its `Valid()` holds:
- the primary and unique keys: user email, category name, and the
  (booking, user) attendee key;
- every foreign key of the schema.

Each handler is a method that `modifies` the database. Its contract states the reply
for every outcome and the exact new contents of every table, including the tables it
leaves alone. Read-only queries are functions over the row sequences. Sorting is one
insertion sort, `Sorting.SortBy`, over integer-sequence keys. It is proved to return a
sorted permutation. SQL leaves ties in `ORDER BY` unordered, and the model promises
no more than that.

Some things are parameters of the model rather than computed by it:
- bcrypt hashing and comparison: a hash string and a `matches` predicate;
- the JWT: the claims it would sign;
- the clock and `Math.random()`;
- the result of `new URL(...)`;
- the outcome of each HTTP request the front end sends.

Every request body field is one of three states: missing (`undefined`), `null`, or a
value. The MySQL driver refuses to bind `undefined`, and the model follows this. The
`adminAuth` middleware of `backend/middleware/auth.js` is modelled by the reply
`Denied`. That file is not part of this model.

## Model

| member | source | states |
|---|---|---|
| BookingModel.CheckAvailability | backend/models/Booking.js:49-62 | true exactly when no stored booking on the same resource and date, with status other than cancelled, has start < requested end and end > requested start |
| BookingModel.OverlapSymmetric | backend/models/Booking.js:57 | the overlap test gives the same answer whichever of the two intervals is the stored one |
| BookingModel.BackToBackNeverBlocks | backend/models/Booking.js:57 | a request ending where a booking starts, or starting where it ends, is never blocked by it: the comparisons are strict |
| BookingModel.IrrelevantRowNeverBlocks | backend/models/Booking.js:53-55 | inserting a cancelled booking, or one on another resource or date, anywhere in the table never changes the availability answer |
| BookingModel.BackToBackExample | backend/models/Booking.js:49-62 | with [10:00, 11:00) stored, [11:00, 12:00) is available and [10:30, 11:30) is not |
| BookingModel.InsertAfterCheckKeepsNoDoubleBooking | backend/models/Booking.js:49-62 | appending a booking that passed the availability check to a table without overlapping live bookings leaves it without them |
| BookingModel.FindByUserId | backend/models/Booking.js:13-23 | a permutation of exactly that user's rows, in order of date descending then start time descending |
| BookingModel.SortedByDateStartDescIsNewestFirst | backend/models/Booking.js:19 | ordering by the (date, start) descending key puts newer dates first and, within a date, later starts first |
| BookingModel.FindAll | backend/models/Booking.js:25-34 | a permutation of all rows, with dates non-increasing |
| BookingModel.FindById | backend/models/Booking.js:36-39 | a row is returned exactly when one has that id, and it has that id |
| BookingModel.FindByIdUnique | backend/models/Booking.js:36-39 | with unique ids, the row returned for an id is the row stored with it |
| BookingModel.SetStatus | backend/models/Booking.js:41-47 | the status update keeps the table's length |
| BookingModel.SetStatusChangesOnlyStatus | backend/models/Booking.js:41-47 | only the status of the row with that id changes; every other row and column stays |
| BookingModel.SetStatusIdempotent | backend/models/Booking.js:41-47 | setting the same status twice equals setting it once |
| BookingModel.CancelKeepsNoDoubleBooking | backend/models/Booking.js:41-47 | cancelling any booking never creates overlapping live bookings |
| BookingModel.SetAttachment | backend/routes/bookings.js:120-123 | the attachment update keeps the table's length |
| BookingModel.SetAttachmentKeepsNoDoubleBooking | backend/routes/bookings.js:120-123 | storing an attachment URL never creates overlapping live bookings |
| BookingModel.Create | backend/models/Booking.js:4-11 | appends exactly one row with the next id, the given fields and status pending; the foreign keys must hold, otherwise nothing changes; no other table changes |
| BookingModel.UpdateStatus | backend/models/Booking.js:41-47 | the table becomes SetStatus of the old one; the result is true exactly when a row had that id |
| BookingRoutes.GetMine | backend/routes/bookings.js:10-18 | 200 with exactly the caller's bookings, newest first |
| BookingRoutes.GetAll | backend/routes/bookings.js:23-34 | 403 'Access denied' exactly for non-administrators; otherwise 200 with a permutation of every booking |
| BookingRoutes.AttendeeIds | backend/routes/bookings.js:61-63 | attendee rows are asked for exactly when attendee_ids is a non-empty array |
| BookingRoutes.AttendeeRows | backend/routes/bookings.js:62 | one pending row (booking id, user id) per element, in order, with no deduplication; a non-negative number or a text of decimal digits is a user id (MySQL converts the text for the INT column), anything else fails the batch |
| BookingRoutes.DuplicateAttendeeRejected | backend/routes/bookings.js:61-67 | two elements of attendee_ids naming the same user, such as 3 and "3", make the batch insert fail on the composite key |
| BookingRoutes.AttendeeUserId | backend/routes/bookings.js:62 | a non-negative number is itself, a non-empty text of decimal digits its value, anything else no user id |
| BookingRoutes.NumericTextIsSameAttendee | backend/routes/bookings.js:62 | `[3, "3"]` asks for two rows for user 3 |
| BookingRoutes.InsertAttendees | backend/routes/bookings.js:65 | the batch is appended all at once exactly when every key is new and both foreign keys hold; otherwise nothing is inserted |
| BookingRoutes.PostBooking | backend/routes/bookings.js:41-75 | an unavailable slot gives 400 'Resource is not available at this time' and no write; otherwise one booking row owned by the caller is appended, with no rollback if the attendee batch then fails (500); the table stays free of overlapping live bookings |
| BookingRoutes.Cancel | backend/routes/bookings.js:80-96 | 404 for a missing id and 403 for a caller who is neither owner nor admin, both with no change; otherwise 'Booking cancelled' and the status becomes cancelled |
| BookingRoutes.CancelIdempotent | backend/routes/bookings.js:90-91 | a second authorised cancel finds the booking, with the same owner, and leaves the table as the first did |
| BookingRoutes.FindOwnerAfterSetStatus | backend/routes/bookings.js:82-90 | after a status update the row found by id is the old row with the new status |
| BookingRoutes.Upload | backend/routes/bookings.js:101-134 | a file over the 5 MB limit gets the error handler's 500 before the handler runs; no file gives 400 'No file uploaded'; a file without a location (disk storage) binds undefined and gives 500; each with no write; otherwise the location is stored on the row with that id and returned |
| Validation.ValidateRegister | backend/middleware/validation.js:4-13 | 400 'Please enter all fields' exactly when email, password or name is falsy; otherwise the length message exactly when `password.length < 6` holds with JavaScript's `<` (UTF-16 code units for a string, elements for an array, an object's own `length` converted to a number, nothing for a number or boolean); next exactly when neither check fires |
| Validation.RegisterStringPassword | backend/middleware/validation.js:9 | a string password passes exactly when it has at least 6 UTF-16 code units, given truthy email and name |
| Validation.RegisterCountsCodeUnits | backend/middleware/validation.js:9 | three characters outside the Basic Multilingual Plane have length 6 and pass; five ASCII letters are too short |
| Validation.ObjectPasswordByLength | backend/middleware/validation.js:9 | an object password with `length` 3, "3" or null is too short; one without `length`, or with `length` "abc", passes |
| Common.ToNumber | backend/middleware/validation.js:9 | JavaScript's `Number(v)` with NaN as None: undefined and objects are NaN, null and `[]` are 0, a number is itself, an array of two or more is NaN |
| Common.StringToNumber | backend/middleware/validation.js:9 | `Number(s)`: "" is 0, decimal digits are their value, a leading minus negates |
| Common.Utf16Length | backend/middleware/validation.js:9 | a string's `.length` lies between its character count and twice it, and equals the character count when every character is in the Basic Multilingual Plane |
| Validation.RegisterNumericPassword | backend/middleware/validation.js:9 | a non-zero number has no length, so it passes the length check |
| Validation.ValidateLogin | backend/middleware/validation.js:15-21 | next exactly when email and password are truthy; otherwise 400 'Please enter all fields' |
| Validation.ValidateBooking | backend/middleware/validation.js:23-29 | next exactly when the four booking fields are truthy; otherwise 400 'Missing required booking fields' |
| Validation.BookingOrderNotChecked | backend/middleware/validation.js:23-29 | start and end times are never compared, and a resource id of 0 is refused as falsy |
| MyBookings.InvitedBookings | backend/check_api_logic.js:14-22 | exactly the bookings with an attendee row for the user, each with that row's RSVP status, newest first |
| MyBookings.Merge | backend/check_api_logic.js:26-34 | the Map-filling loops compute the specified merge |
| MyBookings.MyBookingsOf | backend/check_api_logic.js:9-34 | the merge of the user's own bookings with the invited ones |
| MyBookings.MergeOrder | backend/check_api_logic.js:26-34 | the ids come out in first-insertion order of owned ids then invited ids, with no duplicates; the id set is the union |
| MyBookings.MergeFlags | backend/check_api_logic.js:27-32 | an entry is flagged as owner exactly when its id is an owned id; owned entries carry the owned row |
| MyBookings.OwnedAllPresent | backend/check_api_logic.js:27 | every owned booking appears with is_owner true |
| MyBookings.InvitedPresentUnlessOwned | backend/check_api_logic.js:28-32 | an invited booking whose id is not owned appears with is_owner false |
| ResourceModel.FindById | backend/models/Resource.js:18-21 | a row is returned exactly when one has that id, active or not |
| ResourceModel.FindByIdUnique | backend/models/Resource.js:18-21 | with unique ids, the row returned for an id is the stored one |
| ResourceModel.FindAll | backend/models/Resource.js:13-16 | exactly the rows whose is_active is TRUE |
| ResourceModel.Updated | backend/models/Resource.js:23-33 | all seven bound columns are overwritten from the body; id and category stay |
| ResourceModel.UpdateRows | backend/models/Resource.js:23-33 | the row with that id is Updated and every other row stays |
| ResourceModel.Deactivate | backend/models/Resource.js:35-42 | the soft delete sets is_active to FALSE on the row with that id; every other row stays |
| ResourceModel.DeactivateKeepsRows | backend/models/Resource.js:35-42 | the soft delete removes no row and changes no column but is_active |
| ResourceModel.DeactivateIdempotent | backend/models/Resource.js:35-42 | soft-deleting twice equals soft-deleting once |
| ResourceModel.DeletedHiddenButFound | backend/models/Resource.js:13-42 | after the soft delete the row is gone from the listing but is still found, deactivated, by id |
| ResourceModel.Create | backend/models/Resource.js:4-11 | appends one active row with the next id and the six bound fields, exactly when the driver accepts the binding; no other table changes |
| ResourceModel.Update | backend/models/Resource.js:23-33 | an undefined field makes the statement fail; with no row for the id the result is no match and nothing changes, NULL name or type notwithstanding; a matched row with a NULL name or type fails; otherwise the table becomes UpdateRows of the old one |
| ResourceModel.Delete | backend/models/Resource.js:35-42 | the table becomes Deactivate of the old one; the result is true exactly when a row matched |
| ResourceRoutes.AdminAuth | backend/routes/resources.js:7-12 | passes exactly for the role admin; otherwise 403 'Access denied. Admin only.' |
| ResourceRoutes.GetList | backend/routes/resources.js:17-25 | 200 with exactly the active resources |
| ResourceRoutes.GetOne | backend/routes/resources.js:30-39 | 404 'Resource not found' exactly when no row has the id, active or not; otherwise that row |
| ResourceRoutes.Post | backend/routes/resources.js:44-53 | 403 for non-administrators; 500 when the insert is refused; otherwise the row with the next id, the body's name, type, description, capacity, location and image, active and without category, is appended and returned with 201 |
| ResourceRoutes.Put | backend/routes/resources.js:58-69 | 403 for non-administrators; 500 for an undefined field, or a NULL name or type on an existing row; 404 for an absent id with nothing changed; otherwise the stored row rewritten with the body's values |
| ResourceRoutes.Delete | backend/routes/resources.js:74-83 | 404 when no row matched, else 'Resource removed'; the table becomes the soft-deleted one |
| Categories.List | backend/routes/categories.js:9-17 | 200 with a permutation of all categories, sorted by lower-cased name ascending (the case-insensitive default collation) |
| Categories.ListIgnoresCase | backend/routes/categories.js:11 | "apple" is listed before "Banana" |
| Categories.RenameRows | backend/routes/categories.js:42 | name and description of the row with that id are overwritten; other rows stay |
| Categories.RemoveRows | backend/routes/categories.js:57 | exactly the rows with another id remain |
| Categories.RemoveKeepsOk | backend/routes/categories.js:57 | deleting keeps ids and names unique |
| Categories.RemoveAbsentIsIdentity | backend/routes/categories.js:53-58 | deleting an absent id changes nothing, yet success is reported |
| Categories.Create | backend/routes/categories.js:22-34 | a name already stored gives 400 'Category already exists' and no row; otherwise one row with the next id; non-administrators are refused |
| Categories.Update | backend/routes/categories.js:39-48 | success is reported even when no row has the id; the matched row's name and description are overwritten; a clash with another category's name is 500 |
| Categories.Delete | backend/routes/categories.js:53-63 | the row is removed if present and success is reported either way; a category still used by a resource is refused by the foreign key (500) |
| UserModel.RoleOrDefault | backend/models/User.js:9 | the role when it is truthy, else 'user' |
| UserModel.FindByEmail | backend/models/User.js:13-19 | a user is returned exactly when the email is stored, and it has that email |
| UserModel.FindByEmailUnique | backend/models/User.js:13-19 | with unique emails, the user returned for an email is the stored one |
| UserModel.FindRow | backend/routes/auth.js:181-182 | the full row, hash included, exactly when the id is stored |
| UserModel.FindById | backend/models/User.js:21-27 | the projection without the password hash, exactly when the id is stored |
| UserModel.Apply | backend/routes/users.js:63 | a SET assignment never touches id, email or creation time; only a password assignment changes the hash |
| UserModel.ApplyAll | backend/routes/users.js:63 | a list of SET assignments without a password assignment keeps the hash, id, email and creation time |
| UserModel.UpdateRows | backend/routes/users.js:63 | the row with that id gets the assignments; other rows stay |
| UserModel.Create | backend/models/User.js:4-11 | with a fresh email, appends one user with the next id and role RoleOrDefault; a taken email is refused by the unique key and nothing changes |
| UserRoutes.BuildRoleNameFields | backend/routes/users.js:49-59 | no assignment exactly when neither role nor name is truthy; applying the assignments patches exactly the truthy ones |
| UserRoutes.RoleNameFieldsEffect | backend/routes/users.js:49-64 | role-then-name assignments give the patched row |
| UserRoutes.AdminCreate | backend/routes/users.js:12-36 | a taken email gives 400 'User already exists' and no insert; a missing email or name, or a password that is not a string (bcrypt rejects it), gives 500 and no insert; otherwise one user with role defaulting to 'user' |
| UserRoutes.Update | backend/routes/users.js:44-71 | only the truthy role and name are written, with no write when neither is; success is reported in every case |
| UserRoutes.Summaries | backend/routes/users.js:79 | one projection without the hash per user, in order |
| UserRoutes.List | backend/routes/users.js:76-85 | every user except the caller, and no other, without hash, sorted by lower-cased name ascending |
| UserRoutes.RemoveUser | backend/routes/users.js:96 | exactly the users with another id remain |
| UserRoutes.RemoveAttendeesOf | backend/reset_db_full.js:85 | the cascade drops exactly that user's attendee rows |
| UserRoutes.Delete | backend/routes/users.js:90-102 | the caller's own id gives 400 'Cannot delete yourself' and no write; otherwise the user and their attendee rows go, success even when absent; a user who still owns bookings is 500 |
| AuthRoutes.Register | backend/routes/auth.js:13-57 | a stored email gives 400 'User already exists' and no user; a password that is not a string (a number passes the validator) makes bcrypt reject: 500 and no user; otherwise one user with the next id and the token claims carry that id and role or 'user' |
| AuthRoutes.Login | backend/routes/auth.js:62-100 | success exactly when the password is a string and a stored user with the email has a matching hash; a stored email with a non-string password gives 500; unknown email and wrong password give the same 400 'Invalid Credentials'; the body exposes id, name, email and role only |
| AuthRoutes.EmailsDistinct | backend/reset_db_full.js:21 | a valid user table has no two rows with the same email |
| AuthRoutes.LoginAfterRegister | backend/routes/auth.js:13-100 | after registering with a fresh email, logging in with that password succeeds |
| AuthRoutes.Me | backend/routes/auth.js:105-113 | 200 with the caller's projection, or null when the caller has no row |
| AuthRoutes.BuildDetailFields | backend/routes/auth.js:131-142 | no assignment exactly when the name is not truthy and no file came; applying them sets exactly those two columns |
| AuthRoutes.DetailFieldsEffect | backend/routes/auth.js:131-142 | name-then-file assignments give the updated row |
| AuthRoutes.UpdateDetails | backend/routes/auth.js:122-158 | a file over the 5 MB limit gets the error handler's 500; 404 'User not found' without a row; a file without a location gives 500 and no write; otherwise the truthy name and the file location are stored on the caller's row only |
| AuthRoutes.UpdatePassword | backend/routes/auth.js:163-199 | no row or a non-string current password gives 500; a current password that does not match gives 400 'Current password is incorrect' and keeps the hash; a non-string new password gives 500; otherwise the caller's hash is replaced |
| AuthRoutes.LoginAfterPasswordChange | backend/routes/auth.js:184-192 | after the change the new password logs in and the user's public data is unchanged |
| Calendar.DaysIn | backend/routes/analytics.js:99 | every month has 28 to 31 days |
| Calendar.SetMonth | backend/routes/analytics.js:99 | JavaScript setMonth: the year and month carry over, and a day past the month's end rolls into the next month |
| Calendar.FirstOfMonth | backend/routes/analytics.js:98 | the same year and month, on day 1 |
| Calendar.SetMonthFromFirst | backend/routes/analytics.js:99 | from the first of a month, setMonth lands exactly on the requested month |
| Analytics.CountMine | backend/routes/analytics.js:73 | the user's bookings whatever their status; zero exactly when there are none |
| Analytics.CountUpcoming | backend/routes/analytics.js:74 | the user's bookings dated today or later and not cancelled; zero exactly when there are none |
| Analytics.CountCompleted | backend/routes/analytics.js:75 | the user's bookings dated before today with status completed; zero exactly when there are none |
| Analytics.UpcomingPlusCompletedAtMostTotal | backend/routes/analytics.js:73-75 | upcoming plus completed never exceeds the total |
| Analytics.RecentActivity | backend/routes/analytics.js:76-82 | the first min(5, total) of the user's bookings in (date, start) descending order |
| Analytics.UserRowsCounted | backend/routes/analytics.js:73-82 | the user's ordered listing has as many rows as the total count |
| Analytics.MonthsAsWritten | backend/routes/analytics.js:96-101 | the loop as written produces six labels, each computed by setMonth from today's day of the month |
| Analytics.MonthsAsWrittenRollover | backend/routes/analytics.js:97-100 | on 31 October 2025 the labels are May, Jul, Jul, Aug, Oct, Oct |
| Analytics.MonthsAsWrittenEarlyInMonth | backend/routes/analytics.js:97-100 | up to the 28th of a month, the loop as written gives the intended label |
| Analytics.MonthLabel | backend/routes/analytics.js:98-100 | the label i months back is the name of month (m - i) mod 12 |
| Analytics.Months | backend/routes/analytics.js:96-101 | exactly six labels, oldest first, ending with the current month |
| Analytics.MonthLabelsDistinct | backend/routes/analytics.js:96-101 | with twelve distinct month names, the six labels are distinct |
| Analytics.FindMonth | backend/routes/analytics.js:104 | the first row with that month name, if any |
| Analytics.MonthlyData | backend/routes/analytics.js:103-106 | one entry per label, in label order, with the first matching row's count, or 0 |
| Analytics.Kinds | backend/routes/analytics.js:42 | the resource types, each once |
| Analytics.JoinCountZero | backend/routes/analytics.js:38-43 | a type's LEFT JOIN count is zero exactly when no booking refers to a resource of that type |
| Analytics.Utilization | backend/routes/analytics.js:38-43 | one entry per resource type and no other, each with its LEFT JOIN count |
| Analytics.UnbookedTypeReportsZero | backend/routes/analytics.js:38-43 | a type with no bookings is reported with 0 |
| Analytics.UserStatsOf | backend/routes/analytics.js:63-119 | the three counts, the recent activity, and six monthly entries labelled with the last six month names (the corrected labels), each with the count of the first query row of that label or 0 |
| Analytics.AdminStatsOf | backend/routes/analytics.js:7-60 | non-administrators are refused; otherwise the table counts, min(5, n) distinct rows of the bookings table, newest created first, none created before a row left out, and the utilisation |
| Analytics.NewestCreated | backend/routes/analytics.js:27 | `ORDER BY created_at DESC LIMIT n`: min(n, \|s\|) rows, a sub-multiset of the table, newest created first, none created before a row left out |
| Analytics.TakeNewestCreated | backend/routes/analytics.js:27 | a prefix of a newest-first list is a sub-multiset, and every row after it was created no later than any row in it |
| Upload.Sanitize | backend/utils/s3Upload.js:49 | same length; allowed characters [a-zA-Z0-9.-] stay in place and every other character becomes '_' |
| Upload.SanitizeIsSafe | backend/utils/s3Upload.js:49 | the sanitised name holds allowed characters and '_' only |
| Upload.SanitizeIdempotent | backend/utils/s3Upload.js:49 | sanitising twice equals sanitising once |
| Upload.SanitizeKeepsAllowedNames | backend/utils/s3Upload.js:49 | a name made of allowed characters is kept |
| Upload.DiskFilename | backend/utils/s3Upload.js:46-51 | the disk name ends with the sanitised original name |
| Upload.DiskFilenameIsSafe | backend/utils/s3Upload.js:46-51 | the disk name holds no '/' and only allowed characters and '_' |
| Upload.S3Key | backend/utils/s3Upload.js:26-28 | the key starts with 'bookings/' and ends with the unsanitised original name |
| Upload.ParseS3KeyRoundTrip | backend/utils/s3Upload.js:27 | the timestamp and the original name are recovered from the key |
| TimeSelect.Pad2 | frontend/src/components/ui/time-select.jsx:22 | two digits for an hour below 100 |
| TimeSelect.Pad2Value | frontend/src/components/ui/time-select.jsx:22 | the padded digits denote the hour |
| TimeSelect.Hour12 | frontend/src/components/ui/time-select.jsx:18 | hour - 12 past noon, else the hour, so 12 stays 12 |
| TimeSelect.AmPm | frontend/src/components/ui/time-select.jsx:19 | 'PM' exactly from hour 12 on |
| TimeSelect.Slots | frontend/src/components/ui/time-select.jsx:16-30 | exactly 30 slots |
| TimeSelect.TimeSlots | frontend/src/components/ui/time-select.jsx:15-30 | the push loop yields the slot list |
| TimeSelect.SlotSeconds | frontend/src/components/ui/time-select.jsx:16-30 | slot k starts at 8:00 plus k half-hours |
| TimeSelect.SlotsIncreasing | frontend/src/components/ui/time-select.jsx:22-27 | first '08:00:00', last '22:30:00', strictly increasing and distinct |
| TimeSelect.SlotLabels | frontend/src/components/ui/time-select.jsx:23-28 | the labels include '8:00 AM', '12:00 PM', '1:00 PM' and '10:30 PM' |
| TimeSelect.SelectedLabel | frontend/src/components/ui/time-select.jsx:32 | the label of the first slot with that value, else 'Select time' |
| TimeSelect.SelectedLabelOfSlot | frontend/src/components/ui/time-select.jsx:32 | each slot's value selects its own label |
| NewBooking.StepAfterNext | frontend/src/pages/user/NewBooking.jsx:103-119 | the step stays in 1..4; step 1 needs date and both times, step 2 a resource, step 3 nothing; otherwise one step on |
| NewBooking.StepAfterPrev | frontend/src/pages/user/NewBooking.jsx:121 | one step back, never below 1 |
| NewBooking.FilledFormReachesConfirm | frontend/src/pages/user/NewBooking.jsx:103-119 | with everything filled in, three clicks reach the last step |
| NewBooking.Toggled | frontend/src/pages/user/NewBooking.jsx:123-138 | a selected id is removed, with every equal name; an unselected one is appended with its name |
| NewBooking.ToggleKeepsDistinct | frontend/src/pages/user/NewBooking.jsx:123-138 | the selection never holds an id twice |
| NewBooking.ToggleTwiceRestoresIds | frontend/src/pages/user/NewBooking.jsx:123-138 | toggling an unselected user twice restores the ids |
| NewBooking.ToggleOffDropsEqualNames | frontend/src/pages/user/NewBooking.jsx:129 | deselecting one of two users who share a name drops both names |
| NewBooking.Request | frontend/src/pages/user/NewBooking.jsx:140-158 | PUT /bookings/{id} exactly when editingId is set, else POST /bookings; notes 'Booking for ' + resource name; the other fields as entered |
| NewBooking.Wizard.constructor | frontend/src/pages/user/NewBooking.jsx:25-38 | step 1, empty form, capacity 0 |
| NewBooking.Wizard.NextStep | frontend/src/pages/user/NewBooking.jsx:103-119 | the step becomes StepAfterNext; the form is unchanged |
| NewBooking.Wizard.PrevStep | frontend/src/pages/user/NewBooking.jsx:121 | the step becomes StepAfterPrev; the form is unchanged |
| NewBooking.Wizard.SetDateAndTimes | frontend/src/pages/user/NewBooking.jsx:211-227 | sets date and times only |
| NewBooking.Wizard.SelectResource | frontend/src/pages/user/NewBooking.jsx:249 | sets resource, name and capacity only |
| NewBooking.Wizard.ToggleAttendee | frontend/src/pages/user/NewBooking.jsx:123-138 | the selection becomes Toggled of the old one and stays duplicate-free |
| GlobalSearch.AllItems | frontend/src/components/layout/GlobalSearch.jsx:14-28 | the five base entries, then the three admin entries exactly for an administrator |
| GlobalSearch.BuildItems | frontend/src/components/layout/GlobalSearch.jsx:14-28 | the push builds AllItems |
| GlobalSearch.Filtered | frontend/src/components/layout/GlobalSearch.jsx:30-32 | an empty query shows everything; the result is never longer |
| GlobalSearch.FilteredMembers | frontend/src/components/layout/GlobalSearch.jsx:30-32 | an item is shown exactly when its lower-cased name contains the lower-cased query |
| GlobalSearch.EmptyQueryKeepsAll | frontend/src/components/layout/GlobalSearch.jsx:30-32 | filtering by the empty query would also keep every item |
| GlobalSearch.Down | frontend/src/components/layout/GlobalSearch.jsx:70 | (i + 1) mod n: stays in [0, n), wraps from n - 1 to 0; NaN for n = 0 |
| GlobalSearch.Up | frontend/src/components/layout/GlobalSearch.jsx:73 | (i - 1 + n) mod n: stays in [0, n), wraps from 0 to n - 1; NaN for n = 0 |
| GlobalSearch.JsRem | frontend/src/components/layout/GlobalSearch.jsx:70-73 | the remainder of a non-negative dividend lies in [0, n) |
| GlobalSearch.DownUpInverse | frontend/src/components/layout/GlobalSearch.jsx:68-73 | ArrowUp undoes ArrowDown and ArrowDown undoes ArrowUp |
| GlobalSearch.ArrowOnEmptyIsNaN | frontend/src/components/layout/GlobalSearch.jsx:68-73 | with no results, an arrow key turns the index into NaN |
| GlobalSearch.ItemAt | frontend/src/components/layout/GlobalSearch.jsx:76 | an item exactly when the index is within the list |
| GlobalSearch.Palette.constructor | frontend/src/components/layout/GlobalSearch.jsx:7-9 | closed, empty query, index 0, the role's items |
| GlobalSearch.Palette.Close | frontend/src/components/layout/GlobalSearch.jsx:56-61 | closing resets the query to '' and the index to 0 |
| GlobalSearch.Palette.CommandK | frontend/src/components/layout/GlobalSearch.jsx:36-39 | toggles open |
| GlobalSearch.Palette.Escape | frontend/src/components/layout/GlobalSearch.jsx:40-42 | always closes |
| GlobalSearch.Palette.OpenEvent | frontend/src/components/layout/GlobalSearch.jsx:45 | opens, keeping query and index |
| GlobalSearch.Palette.Type | frontend/src/components/layout/GlobalSearch.jsx:109-112 | sets the query and resets the index to 0 |
| GlobalSearch.Palette.ArrowDown | frontend/src/components/layout/GlobalSearch.jsx:66-70 | while open the index becomes Down over the visible items; closed, nothing changes |
| GlobalSearch.Palette.ArrowUp | frontend/src/components/layout/GlobalSearch.jsx:66-73 | while open the index becomes Up over the visible items; closed, nothing changes |
| GlobalSearch.Palette.Enter | frontend/src/components/layout/GlobalSearch.jsx:74-78 | navigates to the highlighted item and closes only when such an item exists |
| GlobalSearch.Palette.Hover | frontend/src/components/layout/GlobalSearch.jsx:134 | highlights the pointed item |
| GlobalSearch.Palette.Click | frontend/src/components/layout/GlobalSearch.jsx:129 | navigates to the clicked item and closes |
| ImageUtils.DropFirst | frontend/src/lib/image-utils.js:15 | substring(1): everything after the first character |
| ImageUtils.ProxiedImageUrl | frontend/src/lib/image-utils.js:7-33 | null for a falsy url; unchanged outside S3 or when parsing fails; otherwise '/api/images/' + the pathname without its leading '/' |
| ImageUtils.BucketUrlIsProxied | frontend/src/lib/image-utils.js:9-26 | a bucket's object URL maps to '/api/images/' + the key |
| ImageUtils.NonS3UrlIsFixed | frontend/src/lib/image-utils.js:32 | rewriting a URL outside S3 twice gives the URL back |
| ResourceManagement.Listed | frontend/src/pages/admin/ResourceManagement.jsx:76 | a non-array result or a failure becomes [] |
| ResourceManagement.FilteredResources | frontend/src/pages/admin/ResourceManagement.jsx:159-162 | a null list gives [] |
| ResourceManagement.FilteredResourcesMembers | frontend/src/pages/admin/ResourceManagement.jsx:159-162 | a resource is kept exactly when its lower-cased name or type, missing as '', contains the lower-cased term |
| ResourceManagement.FilteredResourcesKeepsOrder | frontend/src/pages/admin/ResourceManagement.jsx:159-162 | filtering a concatenation concatenates the filtered parts, so order is kept |
| ResourceManagement.EmptyTermKeepsAll | frontend/src/pages/admin/ResourceManagement.jsx:159-162 | an empty term keeps every resource |
| ResourceManagement.TrimStart | frontend/src/pages/admin/ResourceManagement.jsx:282 | parseInt skips leading white space |
| ResourceManagement.DigitPrefix | frontend/src/pages/admin/ResourceManagement.jsx:282 | parseInt reads the longest run of digits |
| ResourceManagement.CapacityOf | frontend/src/pages/admin/ResourceManagement.jsx:282 | parseInt's value (decimal, or hexadecimal after `0x`/`0X`), or 0 when it is NaN |
| ResourceManagement.ParseIntOfDecimal | frontend/src/pages/admin/ResourceManagement.jsx:282 | parseInt reads a decimal numeral back, whatever non-digit text follows, save an `x` or `X` after a lone 0 |
| ResourceManagement.CapacityOfDecimal | frontend/src/pages/admin/ResourceManagement.jsx:282 | a typed numeral becomes that capacity (save a lone 0 followed by `x`); an empty field becomes 0 |
| ResourceManagement.ParseIntOfHex | frontend/src/pages/admin/ResourceManagement.jsx:282 | without a radix, `0x` and hexadecimal digits parse as their hexadecimal value |
| ResourceManagement.ParseIntHexExample | frontend/src/pages/admin/ResourceManagement.jsx:282 | parseInt("0x1F") is 31 |
| ResourceManagement.ParseIntHexNeedsDigits | frontend/src/pages/admin/ResourceManagement.jsx:282 | parseInt("0xg") is NaN |
| ResourceManagement.CapacityCell | frontend/src/pages/admin/ResourceManagement.jsx:212 | the capacity is shown exactly when it is greater than 0, else '-' |
| ResourceManagement.FormOf | frontend/src/pages/admin/ResourceManagement.jsx:90-100 | the edit form copies name, type and location, missing as '', and capacity or 0, with no image |
| ResourceManagement.Parts | frontend/src/pages/admin/ResourceManagement.jsx:109-116 | name, type, capacity and location parts, then an image part only for a File |
| ResourceManagement.ImageSentOnlyAsFile | frontend/src/pages/admin/ResourceManagement.jsx:114-116 | a file part is sent exactly when the image is a File |
| ResourceManagement.SaveRequest | frontend/src/pages/admin/ResourceManagement.jsx:102-128 | nothing is sent exactly when the name is empty; PUT /resources/{id} when editing, else POST /resources |
| ResourceManagement.EditThenSave | frontend/src/pages/admin/ResourceManagement.jsx:90-128 | saving an edited named resource sends a PUT to its own path |
| ResourceManagement.DeletePath | frontend/src/pages/admin/ResourceManagement.jsx:142-146 | no request without a selected id; otherwise DELETE /resources/{id} |
| ResourceManagement.ResourcePage.constructor | frontend/src/pages/admin/ResourceManagement.jsx:48-65 | empty list and term, closed modal, default form |
| ResourceManagement.ResourcePage.Fetch | frontend/src/pages/admin/ResourceManagement.jsx:72-84 | the list becomes Listed of the result |
| ResourceManagement.ResourcePage.EditClick | frontend/src/pages/admin/ResourceManagement.jsx:90-100 | the editing id, FormOf the row, modal open |
| ResourceManagement.ResourcePage.TypeCapacity | frontend/src/pages/admin/ResourceManagement.jsx:282 | only the capacity changes, to CapacityOf the text |
| ResourceManagement.ResourcePage.Save | frontend/src/pages/admin/ResourceManagement.jsx:102-140 | sends SaveRequest; after a success the modal closes and the form resets |
| UserManagement.FilteredUsers | frontend/src/pages/admin/UserManagement.jsx:28-35 | never longer than the list |
| UserManagement.FilteredUsersMembers | frontend/src/pages/admin/UserManagement.jsx:30-33 | a user is shown exactly when the lower-cased name or email contains the lower-cased term |
| UserManagement.EmptyTermListsAll | frontend/src/pages/admin/UserManagement.jsx:28-35 | an empty term lists everybody |
| UserManagement.ToggledRole | frontend/src/pages/admin/UserManagement.jsx:50 | 'admin' becomes 'user' and every other role becomes 'admin' |
| UserManagement.ToggleTwice | frontend/src/pages/admin/UserManagement.jsx:50 | toggling twice restores 'admin' and 'user'; any other role comes back as 'user' |
| UserManagement.ToggleRequest | frontend/src/pages/admin/UserManagement.jsx:49-52 | PUT /users/{id} with a role different from the current one |
| UserManagement.DeletePath | frontend/src/pages/admin/UserManagement.jsx:60-63 | no request without a selected id; otherwise DELETE /users/{id} |
| UserManagement.UserPage.constructor | frontend/src/pages/admin/UserManagement.jsx:12-22 | empty lists and term, closed modals, the empty new user with role 'user' |
| UserManagement.UserPage.Fetch | frontend/src/pages/admin/UserManagement.jsx:37-47 | the list on success, unchanged on failure; the filtered list follows |
| UserManagement.UserPage.Search | frontend/src/pages/admin/UserManagement.jsx:28-35 | sets the term; the filtered list follows |
| UserManagement.UserPage.AskDelete | frontend/src/pages/admin/UserManagement.jsx:149 | opens the delete modal for that id |
| UserManagement.UserPage.ConfirmDelete | frontend/src/pages/admin/UserManagement.jsx:60-70 | sends DeletePath of the selected id; the modal closes only after a success |
| UserManagement.UserPage.AddUser | frontend/src/pages/admin/UserManagement.jsx:72-85 | sends the new user exactly when name, email and password are filled in; a success closes the modal and resets the form with role 'user' |

## Left out

- Concurrency. The check-then-insert in the booking create handler can race with another request. Every request is one atomic, sequential step.
- Cryptography and tokens. bcrypt hashing and comparison, salts and JWT signing and expiry are parameters (`hash`, `matches`) or the claims a token would carry.
- Storage services. S3 and SES I/O, the multer storage engines and the image proxy route are left out. The key and file name rules are modelled, and so is the uploaded file multer hands a handler: its size against the 5 MB limit, and a `location` that only S3 storage sets.
- The clock and randomness. `CURDATE()`, `NOW()`, `Date.now()` and `Math.random()` are parameters. So are the month names that `toLocaleString` would give.
- The booking trends query of the admin statistics (`DATE_SUB(NOW(), INTERVAL 6 MONTH)` grouping) is not computed. The per-month query result of the user statistics is a parameter, `monthlyRows`.
- SQL collation. Keys and `=` comparisons are exact. MySQL's default collation compares case- and accent-insensitively, so the unique email and category name keys are weaker in the model. `ORDER BY name` sorts by the lower-cased name; accents and non-ASCII case are not folded.
- Projection columns added by the JOINs (resource name and type, user name and email) are not carried. The inner joins drop no row because the foreign keys hold.
- ENUM columns (`role`, `status`) are not enforced. A role other than 'user' or 'admin' is kept as given.
- JavaScript loose equality, and string-to-number coercion beyond `Common.StringToNumber`. Ids from the URL are integers. The self-delete guard compares them with `==` on integers.
- NaN and floating point. Numbers are integers; the palette's NaN index is an explicit case.
- Common.Lower: converts ASCII letters only; JavaScript's full Unicode case mapping is not modelled.
- ResourceManagement.TrimStart: white space is space, tab, line feed and carriage return only. ECMAScript counts more characters.
- The `notifications` and `audit_logs` tables and their foreign keys are not part of this model. Deleting a user with notifications would fail there.
- `backend/middleware/auth.js` is not part of this model. Authentication is a given caller; the shared `adminAuth` is the reply `Denied`.
- Route wiring and middleware order: which guards a route mounts is read from the route files, not composed. `backend/app.js` mounts only the auth, resources, bookings and analytics routers; the categories and users handlers are modelled as their files define them.
- PUT `/api/bookings/:id` has no handler in the source. The wizard's edit request is modelled only as the request it sends.
- Capacity enforcement, RSVP changes, rescheduling and attendee deduplication do not exist in the source and are not invented.
- The 500 outcomes of the two statistics routes, thrown by database failures, are not modelled.
- HTTP requests from the front end: their outcome is a parameter (`succeeded`, or the fetched result). Toasts, navigation and re-fetching after a save are left out.
- NewBooking: the prefill from `location.state` ("Book Again"), the resource and user fetches and the user search are left out.
- ResourceManagement.FormOf: a null type is read as ''. FormData would send the text "null".
- UserManagement.FilteredUsers: assumes name and email are present strings and the fetched data is an array, as the component does without checking.
- Analytics.UserStatsOf: uses the corrected month labels (`Analytics.Months`), so from the 29th to the 31st its labels can differ from the loop as written at backend/routes/analytics.js:96-101 (see Findings).
- Request field types: the password of the register, login, admin create and password update handlers and the elements of `attendee_ids` are any JSON value; the other body fields are typed strings.
- Common.StringToNumber: whitespace, a leading `+`, decimal points, exponents, hexadecimal, `Infinity` and floating point are not read; such text counts as NaN. So a register password object whose `length` is, say, " 3" or "3.5" passes the model's length test where JavaScript's `<` refuses it.
- BookingRoutes.AttendeeUserId: only numbers and texts of decimal digits are user ids. A boolean (stored as 1 or 0), a text MySQL would reject or truncate, and a nested array are all read as no id, so the batch fails with 500.
- Analytics.AdminStatsOf: activeResources counts every resource row, deactivated ones included, as the query is written.
- Sorting.SortBy: promises a sorted permutation only. How MySQL orders ties is not modelled.

## Findings

| source | as written | input that shows it | evidently intended | confidence | as-written member | corrected member |
|---|---|---|---|---|---|---|
| backend/routes/analytics.js:97-100 | each of the six labels is computed by `d.setMonth(d.getMonth() - i)` on today's date, so a day past the target month's length rolls into the next month | today 31 October 2025: the labels are May, Jul, Jul, Aug, Oct, Oct instead of May, Jun, Jul, Aug, Sep, Oct | the name of each of the last six months, oldest first, with no repeats | high, not executed | Analytics.MonthsAsWrittenRollover | Analytics.Months |
