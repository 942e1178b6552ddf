# Admin dashboard decision logic, in Dafny

This project models the client-side decision logic of the admin dashboard's pages. It covers:

- the four "add" forms (emergency service, user, event, accommodation);
- three list pages (users, accommodations, emergency services).

Rendering and HTTP are outside the model. What it keeps is the state each page changes and the values each page computes.

The shared modules:

- `Wrappers` holds `Option`, for a value that may be absent.
- `Js` holds what the pages borrow from the JavaScript runtime:
  - the character set of the regular-expression class `\s`;
  - decimal digits and `String(n)` for numbers;
  - ASCII `toUpperCase`;
  - `padStart(2, "0")`.
- `Http` models how a request ends, as an input to the submit methods. An `Outcome` is one of:
  - `Responded(status)`: a resolved request. The axios instance keeps the default status check, so this stands for a 2xx status only; any other status arrives as a rejection;
  - `Rejected(Some(response))`: an error with an optional `message` and an optional `status`;
  - `Rejected(None)`: no response at all.

  It also holds the precedence rule that turns a rejection into an error text: a non-empty server message first, then the page's status table, then a generic text.

The add pages:

- Each page is a `class` with the page's state as fields.
- `HandleChange` replaces one field.
- `HandleSubmit` runs the page's ordered chain of checks with early returns. The first failing check sets its message.
- The emergency-service, event and accommodation pages hold `formData`, `error`, `success` and `loading`. On those pages:
  - a failing check sends nothing;
  - otherwise `HandleSubmit` returns the body it posts and then applies the outcome;
  - status 200 or 201 sets the success text and resets the form;
  - any other 2xx status sets nothing;
  - a rejection sets the mapped error text;
  - `loading` is false on every exit.
- The user page sends no request, so it has no `loading`, `success` or outcome. It holds `formData`, `error` and the list of paths it navigated to. When every check passes, `HandleSubmit` leaves `error` empty and navigates to `/admin/users`.
- The checks themselves are pure functions (`ValidationError`, `ValidPhoneNumber`, `ValidEmail`, `DateError`), and the lemmas state their meaning.

The list pages:

- On the user and accommodation pages, counts are `filter(...).length`, modelled by `Lists.Filter`.
- On the emergency-service page, the per-type object is built by a `reduce` that updates a dictionary in place. It is modelled as the method `CountByType`, a loop over the services that updates a map and records the order in which keys were created.
- The first three cards follow the order of `Object.entries`:
  - array-index keys come first, in increasing numeric order;
  - the other keys follow in creation order.

## Model

| member | source | states |
|---|---|---|
| `Http.StatusText` | src/app/admin/emergency-services/add/page.tsx:120-127 | The text is the fallback or one of the rules' texts. The first-match meaning is stated by `StatusTextFirstMatch` and `StatusTextNoMatch`. |
| `Http.ErrorText` | src/app/admin/emergency-services/add/page.tsx:115-128 | With no response the text is the fallback. A non-empty server message wins. Otherwise the text is the first status rule matching the status, or the fallback. |
| `Http.StatusTextFirstMatch` | src/app/admin/events/add/page.tsx:97-102 | The text for a status is that of the first rule whose code matches, when no earlier rule matches. |
| `Http.StatusTextNoMatch` | src/app/admin/accommodations/add/page.tsx:72-77 | A status that matches no rule gets the generic text. |
| `Http.ErrorTextNonEmpty` | src/app/admin/emergency-services/add/page.tsx:118-128 | The error text after a failed request is never empty, given non-empty rule texts and fallback. |
| `Js.NatToString` | src/app/admin/events/add/page.tsx:113-117 | `String(n)` is decimal digits without a leading zero, one digit exactly when `n < 10`. |
| `Js.NatToStringRoundTrip` | src/app/admin/events/add/page.tsx:113-117 | Reading the digits of `String(n)` back gives `n`. |
| `Js.PadStart2` | src/app/admin/events/add/page.tsx:114-117 | `padStart(2, "0")` leaves texts of length two or more unchanged and pads a one-character text with one `0`. |
| `Js.ToUpper` | src/app/admin/users/page.tsx:20 | Upper-casing keeps the length and maps each character through ASCII `toUpperCase`. |
| `EmergencyServiceAdd.With` | src/app/admin/emergency-services/add/page.tsx:48-50 | `{ ...prev, [field]: value }` sets the named field to the value and keeps every other field. |
| `EmergencyServiceAdd.EmptyFormIsEmpty` | src/app/admin/emergency-services/add/page.tsx:37-46 | Every field of the initial form is the empty text. |
| `EmergencyServiceAdd.CleanPhone` | src/app/admin/emergency-services/add/page.tsx:55 | Stripping never lengthens the phone text. Which characters it keeps is stated by `CleanPhoneChars` and `CleanPhoneKeepsOthers`. |
| `EmergencyServiceAdd.CleanPhoneChars` | src/app/admin/emergency-services/add/page.tsx:55 | Every character left after stripping came from the input and is neither whitespace, `-` nor `$`. |
| `EmergencyServiceAdd.CleanPhoneKeepsOthers` | src/app/admin/emergency-services/add/page.tsx:55 | Every character of the input other than whitespace, `-` and `$` survives the stripping. |
| `EmergencyServiceAdd.PhoneNumberRule` | src/app/admin/emergency-services/add/page.tsx:52-57 | A phone number is accepted if and only if it contains `+` anywhere, or, after whitespace, `-` and `$` are removed, it is 1 to 16 digits not starting with `0`. |
| `EmergencyServiceAdd.ParenthesizedPhoneRefused` | src/app/admin/emergency-services/add/page.tsx:54-56 | Parentheses are not stripped, so a number written `(area)rest` without `+` is refused. |
| `EmergencyServiceAdd.ValidPhoneNumber` | src/app/admin/emergency-services/add/page.tsx:52-57 | No contract of its own. Its meaning is stated by `PhoneNumberRule`, `SeparatorsIgnored` and `OtherCharRefused`. |
| `EmergencyServiceAdd.SeparatedPhoneAccepted` | src/app/admin/emergency-services/add/page.tsx:54-56 | Three digit groups joined by a space and then a dash, as in `555 123-4567`, are accepted when the digits alone would be. |
| `EmergencyServiceAdd.SeparatorsIgnored` | src/app/admin/emergency-services/add/page.tsx:52-57 | A phone text made only of digits and whitespace, `-` or `$`, in any arrangement, cleans to its digits. It is accepted if and only if those digits are 1 to 16 long and do not start with `0`. |
| `EmergencyServiceAdd.OtherCharRefused` | src/app/admin/emergency-services/add/page.tsx:52-57 | A number without `+` that holds any character other than a digit, whitespace, `-` or `$` is refused. This covers dots, letters and parentheses. |
| `EmergencyServiceAdd.CleanPhoneConcat` | src/app/admin/emergency-services/add/page.tsx:55 | Stripping works character by character, so it distributes over concatenation. |
| `EmergencyServiceAdd.ValidEmail` | src/app/admin/emergency-services/add/page.tsx:59-63 | No contract of its own. Its meaning is stated by `EmailRule`. |
| `EmergencyServiceAdd.EmailRule` | src/app/admin/emergency-services/add/page.tsx:59-63 | An e-mail is accepted if and only if it is empty, or it meets all three conditions: no whitespace; exactly one `@`, with something before it; after the `@`, a `.` that is neither first nor last. |
| `EmergencyServiceAdd.EmailRegexHasShape` | src/app/admin/emergency-services/add/page.tsx:61-62 | Every text the e-mail regular expression matches has that shape. |
| `EmergencyServiceAdd.EmailShapeMatches` | src/app/admin/emergency-services/add/page.tsx:61-62 | Every text of that shape is matched by the regular expression. |
| `EmergencyServiceAdd.ValidationError` | src/app/admin/emergency-services/add/page.tsx:72-90 | No message exactly when the required fields are filled, the phone is valid and the e-mail is valid. Otherwise the message is one of the three check messages. |
| `EmergencyServiceAdd.ChecksInOrder` | src/app/admin/emergency-services/add/page.tsx:72-90 | The first failing check decides the message, in this order: required fields, then phone, then e-mail. |
| `EmergencyServiceAdd.EmptyFormRefused` | src/app/admin/emergency-services/add/page.tsx:37-46 | Submitting the initial form gives the required-fields message. |
| `EmergencyServiceAdd.SubmitErrorPrecedence` | src/app/admin/emergency-services/add/page.tsx:115-128 | For a failed request the text is, in order: the server message, then the texts for 400, 409 and 500, then the generic text. A missing response gets the generic text. |
| `EmergencyServiceAdd.AddServicePage.constructor` | src/app/admin/emergency-services/add/page.tsx:33-46 | The page starts with the empty form, no error or success text, and not loading. |
| `EmergencyServiceAdd.AddServicePage.HandleChange` | src/app/admin/emergency-services/add/page.tsx:48-50 | Only the named field of `formData` changes; the rest of the state is unchanged. |
| `EmergencyServiceAdd.AddServicePage.HandleSubmit` | src/app/admin/emergency-services/add/page.tsx:65-132 | A failing check sets its message and sends nothing. Otherwise the form is posted: 200/201 sets the success text and empties every field, another status sets nothing, and a rejection sets the mapped error. `loading` ends false. |
| `UserAdd.With` | src/app/admin/users/add/page.tsx:37-39 | Sets the named text field and keeps every other field, including `isActive`. |
| `UserAdd.InitialFormDefaults` | src/app/admin/users/add/page.tsx:23-35 | The initial form has role `user`, `isActive` true, userType `NORMAL`, and every other text field empty. |
| `UserAdd.ValidationError` | src/app/admin/users/add/page.tsx:46-62 | No message exactly when email and password are present, the passwords match, and (for userType `STUDENT`) the four student fields are filled. Any message is one of the three check messages. |
| `UserAdd.MissingCredentialsFirst` | src/app/admin/users/add/page.tsx:46-49 | A missing email or password gives "Email and password are required", whatever the passwords are. |
| `UserAdd.MismatchSecond` | src/app/admin/users/add/page.tsx:51-54 | With both present, differing passwords give "Passwords do not match". |
| `UserAdd.StudentInfoRequired` | src/app/admin/users/add/page.tsx:56-61 | A `STUDENT` with valid credentials and matching passwords, but a missing country, university, course or language, gets "All student information is required". |
| `UserAdd.StudentFieldsOnlyForStudents` | src/app/admin/users/add/page.tsx:56-62 | For any userType other than `STUDENT`, the student fields do not affect the verdict. |
| `UserAdd.InitialFormNeedsOnlyCredentials` | src/app/admin/users/add/page.tsx:23-62 | The initial form, with an email and matching passwords, passes every check. |
| `UserAdd.AddUserPage.constructor` | src/app/admin/users/add/page.tsx:21-35 | The page starts with the initial form, no error and no navigation. |
| `UserAdd.AddUserPage.HandleChange` | src/app/admin/users/add/page.tsx:37-39 | Only the named text field changes. |
| `UserAdd.AddUserPage.HandleActiveChange` | src/app/admin/users/add/page.tsx:128-131 | The switch sets `isActive` and nothing else. |
| `UserAdd.AddUserPage.HandleSubmit` | src/app/admin/users/add/page.tsx:41-69 | A failing check sets its message and does not navigate. Otherwise `error` is empty and `/admin/users` is appended to the navigations. The form is unchanged either way. |
| `EventAdd.With` | src/app/admin/events/add/page.tsx:31-33 | Sets the named field and keeps the others. |
| `EventAdd.ValidationError` | src/app/admin/events/add/page.tsx:42-63 | No message exactly when all five fields are filled and the date checks pass. Any message is the required-fields, past-start or order message. |
| `EventAdd.DateError` | src/app/admin/events/add/page.tsx:49-63 | "Start date cannot be in the past" exactly when the start is earlier than now. "End date must be after start date" exactly when the start is not in the past and the end is at or before it. Comparisons with an invalid date are false. |
| `EventAdd.AcceptedEventHasPositiveDuration` | src/app/admin/events/add/page.tsx:42-63 | An accepted event with valid dates has all fields filled, a start not before now, and an end strictly after the start. |
| `EventAdd.PastCheckedBeforeOrder` | src/app/admin/events/add/page.tsx:53-63 | A start in the past is reported as such, whatever the end. |
| `EventAdd.RequiredCheckedFirst` | src/app/admin/events/add/page.tsx:42-46 | An empty field gives "All fields are required", whatever the dates. |
| `EventAdd.InvalidDatesPassDateChecks` | src/app/admin/events/add/page.tsx:49-63 | Unparseable dates pass both date checks, because every comparison with an invalid date is false. |
| `EventAdd.SubmitErrorPrecedence` | src/app/admin/events/add/page.tsx:92-103 | The server message comes first, then 400, then 500, then the generic text. A 409 gets the generic text. |
| `EventAdd.AddEventPage.constructor` | src/app/admin/events/add/page.tsx:19-29 | The page starts with five empty fields, no texts, and not loading. |
| `EventAdd.AddEventPage.HandleChange` | src/app/admin/events/add/page.tsx:31-33 | Only the named field changes. |
| `EventAdd.AddEventPage.HandleSubmit` | src/app/admin/events/add/page.tsx:35-107 | A failing check sets its message and sends nothing. If a date does not parse, the ISO conversion throws: the generic text is set and nothing is sent. Otherwise both dates are posted as timestamps: 200/201 sets the success text and empties the form, and a rejection sets the mapped error. `loading` ends false. |
| `EventAdd.FormatDateTimeLocal` | src/app/admin/events/add/page.tsx:110-119 | The empty text gives the empty text. An invalid date gives the `NaN` pattern. |
| `EventAdd.TwoRoundTrip` | src/app/admin/events/add/page.tsx:114-117 | Each padded component below 100 is exactly two digits that read back as the number. |
| `EventAdd.YearRoundTrip` | src/app/admin/events/add/page.tsx:113 | The year's text, negative years included, reads back as the year. |
| `EventAdd.FormatRoundTrip` | src/app/admin/events/add/page.tsx:110-119 | For in-range components, the output has the shape `YYYY-MM-DDTHH:MM` with a 1-based month, and parsing it gives back the date's year, month, day, hour and minute. |
| `AccommodationAdd.With` | src/app/admin/accommodations/add/page.tsx:31-33 | Sets the named text field and keeps the others, including `availability`. |
| `AccommodationAdd.ValidationError` | src/app/admin/accommodations/add/page.tsx:42-46 | No message exactly when name, address and description are non-empty. |
| `AccommodationAdd.AvailabilityNotValidated` | src/app/admin/accommodations/add/page.tsx:42-46 | Changing `availability` never changes the verdict. |
| `AccommodationAdd.SubmitErrorPrecedence` | src/app/admin/accommodations/add/page.tsx:67-78 | The server message comes first, then 400, then 500, then the generic text. A missing response gets the generic text. |
| `AccommodationAdd.AddAccommodationPage.constructor` | src/app/admin/accommodations/add/page.tsx:20-29 | The page starts with three empty texts, `availability` true, and no messages. |
| `AccommodationAdd.AddAccommodationPage.HandleChange` | src/app/admin/accommodations/add/page.tsx:31-33 | Only the named text field changes. |
| `AccommodationAdd.AddAccommodationPage.HandleAvailabilityChange` | src/app/admin/accommodations/add/page.tsx:163-167 | The switch sets `availability` and nothing else. |
| `AccommodationAdd.AddAccommodationPage.HandleSubmit` | src/app/admin/accommodations/add/page.tsx:35-82 | The required-fields check failing sends nothing. Only 200/201 sets the success text and resets to the defaults. A rejection sets the mapped error. `loading` ends false. |
| `Lists.Filter` | src/app/admin/users/page.tsx:39-41 | `filter` keeps only elements that come from the input and satisfy the predicate, and never lengthens it. |
| `Lists.FilterLengthCountsPositions` | src/app/admin/accommodations/page.tsx:35-36 | `filter(p).length` is the number of positions whose element satisfies `p`. |
| `Lists.FilterSplit` | src/app/admin/accommodations/page.tsx:35-37 | Filtering by a predicate and by its negation splits the input as a multiset, so the two lengths add up to the whole. |
| `Lists.ExclusiveFiltersBounded` | src/app/admin/users/page.tsx:39-41 | Three pairwise exclusive filters select at most the whole input. |
| `UserList.GetInitials` | src/app/admin/users/page.tsx:14-21 | No contract of its own. Its meaning is stated by `InitialsAreWordStarts` and `NoNameNoInitials`. |
| `UserList.InitialsAreWordStarts` | src/app/admin/users/page.tsx:14-21 | The initials are the upper-cased first characters of the non-empty space-separated words, in order. Repeated, leading or trailing spaces add nothing. |
| `UserList.NoNameNoInitials` | src/app/admin/users/page.tsx:15 | A null, undefined or empty name gives no initials. |
| `UserList.WordStarts` | src/app/admin/users/page.tsx:16-20 | The word starts never contain a space and are no longer than the name. |
| `UserList.JoinSplit` | src/app/admin/users/page.tsx:16-17 | Splitting the name on spaces loses nothing: joining the words back gives the name. |
| `UserList.AdminCount` | src/app/admin/users/page.tsx:39 | At most the number of users. `RoleCountIsExact` states that it counts the users whose role is exactly `admin`. |
| `UserList.StudentCount` | src/app/admin/users/page.tsx:40 | At most the number of users. `RoleCountIsExact` states that it counts the users whose role is exactly `student`. |
| `UserList.RegularUserCount` | src/app/admin/users/page.tsx:41 | At most the number of users. `RoleCountIsExact` states that it counts the users whose role is exactly `user`. |
| `UserList.RoleCountIsExact` | src/app/admin/users/page.tsx:39-41 | Each role count is the number of users whose role is exactly that string. |
| `UserList.RoleCountsBounded` | src/app/admin/users/page.tsx:39-41 | The admin, student and user counts together never exceed the "Total Users" figure. |
| `UserList.StudentRows` | src/app/admin/users/page.tsx:171-172 | A user is in the student table if and only if it is in the list and has userType `student`. |
| `UserList.StudentTableIgnoresRole` | src/app/admin/users/page.tsx:171-172 | Changing any user's role never changes how many rows the student table has. |
| `UserList.StudentCountIgnoresUserType` | src/app/admin/users/page.tsx:40 | Changing any user's userType never changes the "Students" count. |
| `UserList.StudentTableIndependentOfStudentCount` | src/app/admin/users/page.tsx:40 | A user with role `user` and userType `student` appears in the student table but not in the "Students" count. |
| `AccommodationList.AvailableCount` | src/app/admin/accommodations/page.tsx:35 | At most the total. `CountsAreExact` states that it counts the available rows. |
| `AccommodationList.OccupiedCount` | src/app/admin/accommodations/page.tsx:36 | At most the total. `CountsAreExact` states that it counts the rows that are not available. |
| `AccommodationList.CountsPartitionTotal` | src/app/admin/accommodations/page.tsx:35-37 | Available plus occupied equals the total, and neither exceeds it. |
| `AccommodationList.CountsAreExact` | src/app/admin/accommodations/page.tsx:35-36 | The available count is the number of rows with `availability` true. The occupied count is the number with it false. |
| `AccommodationList.Badge` | src/app/admin/accommodations/page.tsx:104-118 | The badge reads "Available" if and only if the row is available, and "Occupied" if and only if it is not. |
| `EmergencyServiceList.CountByType` | src/app/admin/emergency-services/page.tsx:38-41 | The loop's map is the per-type histogram of the services. Its key order is the order in which each type first appears. |
| `EmergencyServiceList.Histogram` | src/app/admin/emergency-services/page.tsx:38-41 | The object the `reduce` returns: its keys are exactly the types present. `CountIsExact` and `HistogramKeysAndValues` state its values. |
| `EmergencyServiceList.FirstAppearances` | src/app/admin/emergency-services/page.tsx:38-41 | The keys in creation order are exactly the types present, each once. |
| `EmergencyServiceList.FirstAppearanceOrder` | src/app/admin/emergency-services/page.tsx:38-41 | A key created before another belongs to a type that occurs in the list before any service of the other type. |
| `EmergencyServiceList.HistogramStep` | src/app/admin/emergency-services/page.tsx:39 | One step of the `reduce` adds one to the type's count, starting from zero for a new type. |
| `EmergencyServiceList.CountIsExact` | src/app/admin/emergency-services/page.tsx:38-41 | The value stored for a type is the number of services of that type. |
| `EmergencyServiceList.HistogramKeysAndValues` | src/app/admin/emergency-services/page.tsx:38-41 | The keys are exactly the types present, and every value is at least 1. |
| `EmergencyServiceList.HistogramSumIsTotal` | src/app/admin/emergency-services/page.tsx:35-41 | The values, summed over the keys, equal `totalServices`. |
| `EmergencyServiceList.EntryOrder` | src/app/admin/emergency-services/page.tsx:66 | `Object.entries` lists every key exactly once. |
| `EmergencyServiceList.SortAscending` | src/app/admin/emergency-services/page.tsx:66 | The insertion sort used for array-index keys returns them in increasing numeric order. |
| `EmergencyServiceList.EntryOrderLayout` | src/app/admin/emergency-services/page.tsx:66 | `Object.entries` lists the array-index keys first, in increasing numeric order, then every other key in creation order. |
| `EmergencyServiceList.TypeCards` | src/app/admin/emergency-services/page.tsx:66-68 | `slice(0, 3)` of the entries gives min(3, number of keys) cards. Card i shows the i-th entry of `Object.entries` (see `EntryOrderLayout`) and the value stored for it. |
| `EmergencyServiceList.TypeCardsSummary` | src/app/admin/emergency-services/page.tsx:66-68 | There are min(3, number of distinct types) cards. Each shows a type present and its count, which is at least 1. |
| `EmergencyServiceList.CardsFollowFirstAppearance` | src/app/admin/emergency-services/page.tsx:66-68 | When no type looks like an array index, the cards follow the order of first appearance. |

## Left out

- The data hooks and the axios instance: the result of a request is the `Outcome` parameter of `HandleSubmit`. Fetching on mount, loading spinners and the error paragraphs of the list pages are not modelled.
- `Date` is not modelled.
  - Parsing a date text is the `parseDate` parameter. An invalid date is `None`.
  - The current time is the `now` parameter.
  - The calendar fields that `getFullYear`, `getMonth`, `getDate`, `getHours` and `getMinutes` return, timezone included, are the `components` parameter.
  - `toISOString` is only modelled as throwing on an invalid date; a valid date is posted as its timestamp.
- `toUpperCase` is modelled for ASCII only; other letters are left as they are. Texts are sequences of characters, not UTF-16 code units.
- The `setTimeout` redirect after a successful submit, `console.log`, and all JSX markup and styling, including the CSS `capitalize` of the type cards.
- `handleChange` accepts any field name at run time. The model restricts it to the page's own fields, one enumeration per page.
- The event page's duration preview (floating-point `Math.round`) and its locale date rendering.
- Keys inherited from `Object.prototype` are not modelled. A service type such as `constructor` would make `acc[type] || 0` read an inherited value.
- The dashboard, the layout, the events list page and the build configuration.
