# Appointments view and phone-number input, modelled in Dafny

This project models the two pieces of logic under the booking front end's
client widgets.

- **The appointments view** (`Appointments`). It holds the user's appointment
  records in an array. A status tab filters what is shown. A sort selector
  reorders the held array in place by one of four comparators, chosen by
  string tests on the selected value. A cancel action replaces one record's
  status with the status the server reports. It also derives the date label
  shown on each card.
- **The phone-number input** (`PhoneNumber`). The prefix comes from a fixed
  carrier list. The local number is checked on every change against the
  pattern `^\d{7}$`. The handler passes the raw value to the caller, stores
  it, and sets or clears the error message.
- `JsString` holds the semantics of `String.prototype.includes` and
  `String.prototype.substring` (section 22.1.3 of ECMA-262), which the view
  relies on.

Files: `js_string.dfy`, `appointments.dfy`, `phone_number_el.dfy`.

Modelling choices:

- An appointment's `_id`, its date (the value of `new Date(date)`) and its
  price are integers.
- Status is a closed enumeration of `Upcoming`, `Completed` and `Canceled`.
- The HTTP calls are not modelled. Their results arrive as parameters: a
  `FetchOutcome`, and a `DeleteOutcome` (`Deleted(status)` or `DeleteFailed`).
- `localeCompare` becomes `NameCompare`, a lexicographic comparison on
  Unicode scalar values (Dafny's `char`) that returns -1, 0 or 1.
- `Array.prototype.sort` becomes an insertion sort over the array. It uses
  the same comparator for each order and is proved against "ordered by the
  comparator, and a permutation".
- In `PhoneNumberEl`, the calls into the caller's two handlers are recorded
  as `Step`s in a `steps` trace, next to the two state updates, in the
  order the handler performs them.
- The sort selector exists only while the list is rendered, and rendering the
  list means calling `.filter` on the held array. So `SortByChoice` requires a
  held array.
- `CancelAppointment` has no such requirement. If a delete succeeds while no
  list is held, `.map` throws inside the `try`. The `catch` then sets the
  error, and the model does the same.

Where the design description and the code differ, the model follows the code:

- The description says a failed fetch leads to an error view. The code only
  logs the failure and clears `loading`. It never sets `error`, and the held
  list stays `null`. `FetchSettled` leaves `error` untouched.
- The description calls date order the default sort. The code never sorts on
  load. The selector reads "Sort by date" (line 16), but the list keeps the
  server's order (line 24). Picking the option that is already selected fires
  no `onChange`. `FetchSettled` likewise keeps the server's order.

## Model

| member | source | states |
|---|---|---|
| `Appointments.AppointmentsView.constructor` | src/components/client_components/Appointments.jsx:12-16 | On mount no list is held, `loading` is true, there is no error, the tab is `Upcoming` and the sort label is "Sort by date". |
| `Appointments.AppointmentsView.FetchSettled` | src/components/client_components/Appointments.jsx:23-28 | On success a fresh array holds the returned records in the server's order. On failure the held list is unchanged. Either way `loading` becomes false, and nothing else changes (the error is never set). |
| `Appointments.AppointmentsView.SelectType` | src/components/client_components/Appointments.jsx:87 | The selected tab becomes the chosen status. |
| `Appointments.AppointmentsView.SortByChoice` | src/components/client_components/Appointments.jsx:61-75 | `selectedSort` becomes the value. The held array keeps the same records. It is non-decreasing by date for the value "Sort by date". It is non-increasing by price for another value that includes "Sort by price" and "descending". It is non-decreasing by price for another value that includes "Sort by price" but not "descending". It is ordered by provider name for "Sort by service provider name". Any value matching no test leaves the array untouched. |
| `Appointments.SortInPlace` | src/components/client_components/Appointments.jsx:65-73 | The in-place sort leaves the array ordered by the chosen comparator, and the new contents are a permutation of the old. |
| `Appointments.ModeOfCases` | src/components/client_components/Appointments.jsx:64-74 | For each order, the dispatch picks it exactly when the source's tests say so, tested in the source's order. No order is picked exactly when the value is neither label and does not include "Sort by price". |
| `Appointments.ModeOf` | src/components/client_components/Appointments.jsx:64-74 | The dispatch from a selector value to an order, or to none. Its meaning is given by `ModeOfCases` and `MenuOptionsSelectOrders`. |
| `Appointments.MenuOptionsSelectOrders` | src/components/client_components/Appointments.jsx:98-101 | The four options of the selector select date, price descending, price ascending and provider name. |
| `Appointments.SortedByMeaning` | src/components/client_components/Appointments.jsx:65-73 | "Ordered by the comparator" means the following for each order: dates non-decreasing; prices non-increasing; prices non-decreasing; provider names non-decreasing. |
| `Appointments.Comparator` | src/components/client_components/Appointments.jsx:65-73 | The four comparator lambdas. By date: negative exactly when `a` is earlier, zero exactly on equal dates. Price descending: negative exactly when `a` costs more. Price ascending: negative exactly when `a` costs less. In both price orders zero means equal prices. By name: zero exactly on equal names. Consistency and transitivity are given by `ComparatorFlip` and `ComparatorTransitive`. |
| `Appointments.ComparatorFlip` | src/components/client_components/Appointments.jsx:65-73 | Each comparator is antisymmetric in sign, so when `a` goes after `b`, `b` goes before `a`. |
| `Appointments.ComparatorTransitive` | src/components/client_components/Appointments.jsx:65-73 | Each comparator's "not after" relation is transitive. |
| `Appointments.NameCompareAntisymmetric` | src/components/client_components/Appointments.jsx:73 | Comparing names the other way round negates the result. |
| `Appointments.NameCompareZeroIff` | src/components/client_components/Appointments.jsx:73 | Two names compare equal exactly when they are identical. |
| `Appointments.NameCompareTransitive` | src/components/client_components/Appointments.jsx:73 | Name order is transitive. |
| `Appointments.NameCompare` | src/components/client_components/Appointments.jsx:73 | The stand-in for `localeCompare` always returns -1, 0 or 1. Its order properties are given by `NameCompareAntisymmetric`, `NameCompareZeroIff` and `NameCompareTransitive`. |
| `Appointments.AppointmentsView.CancelAppointment` | src/components/client_components/Appointments.jsx:34-51 | After a successful delete, a fresh list replaces the held one. It equals `CancelUpdate` of the old list with the reported status, and the error is unchanged. On a failed delete, or when no list is held, the list is unchanged and the error is exactly "Failed to cancel the appointment.". |
| `Appointments.CancelUpdate` | src/components/client_components/Appointments.jsx:37-45 | The length is unchanged. A record with the given id has its status replaced by the reported one, with its other fields as before. Every other record is identical to before, at the same position. |
| `Appointments.CancelUpdateKeepsIds` | src/components/client_components/Appointments.jsx:37-45 | Every position keeps its record's id, so the list's order is preserved. |
| `Appointments.CancelUpdateIdempotent` | src/components/client_components/Appointments.jsx:37-45 | Applying the same reported status twice gives the same list as applying it once. |
| `Appointments.CancelUpdateMissingId` | src/components/client_components/Appointments.jsx:37-45 | When no record has the id, the list is unchanged. |
| `Appointments.Visible` | src/components/client_components/Appointments.jsx:104 | The shown list is a subsequence of the held list, in held order. Every element has the selected status. Each held record with that status occurs as often as it is held, and no other record occurs. |
| `Appointments.TabsPartition` | src/components/client_components/Appointments.jsx:104 | The three tabs together show every held record exactly once. |
| `Appointments.VisibleAfterReorder` | src/components/client_components/Appointments.jsx:104 | A reordering of the held list changes only the order of what a tab shows, not which records it shows. |
| `Appointments.CancelledLeavesUpcoming` | src/components/client_components/Appointments.jsx:104 | Once an appointment is reported `Canceled`, no record with its id is shown under `Upcoming`. |
| `Appointments.BlankTZ` | src/components/client_components/Appointments.jsx:109 | `replace(/[TZ]/g, " ")` preserves length and maps each 'T' and 'Z' to a space, leaving every other character as it is. |
| `Appointments.DateLabel` | src/components/client_components/Appointments.jsx:109 | The label of a card has length `len - 8` of its date string, or 0 when that string is shorter than 8 characters. Position by position it is the date string with each 'T' and 'Z' made a space, so it contains no 'T' or 'Z'. |
| `Appointments.DateLabelExample` | src/components/client_components/Appointments.jsx:109 | Example: a record dated "2024-05-01T10:30:00.000Z" is labelled "2024-05-01 10:30". |
| `JsString.IncludesIff` | src/components/client_components/Appointments.jsx:66-67 | `includes` holds exactly when the searched string occurs at some index. |
| `JsString.Includes` | src/components/client_components/Appointments.jsx:66-67 | `String.prototype.includes` with no position argument. Its meaning is given by `IncludesIff`. |
| `JsString.SubstringFromStart` | src/components/client_components/Appointments.jsx:109 | `substring(0, n)` is empty for negative `n`, the first `n` characters inside the string, and the whole string past its end. |
| `JsString.Substring` | src/components/client_components/Appointments.jsx:109 | `String.prototype.substring` clamps both indices to `[0, len]` and swaps them when the start is larger. Its length is the distance between the clamped indices. |
| `PhoneNumber.PhoneNumberEl.constructor` | src/components/PhoneNumberEl.jsx:18-19 | Initially the error is empty, `phone` is the placeholder, and nothing has been forwarded. |
| `PhoneNumber.PhoneNumberEl.HandleInputValueChange` | src/components/PhoneNumberEl.jsx:22-31 | The caller's input handler is called with the new value first, valid or not. Then `phone` becomes the value. Then the error becomes "" when the value is seven ASCII digits, and "Phone number should contain exactly 7 digits." otherwise. |
| `PhoneNumber.PhoneNumberEl.HandlePrefixSelected` | src/components/PhoneNumberEl.jsx:36 | A selected prefix is forwarded unchanged, without validation. `phone` and the error are untouched. |
| `PhoneNumber.ErrorFor` | src/components/PhoneNumberEl.jsx:26-30 | The message is empty exactly when the value is seven characters in '0'..'9', and is the fixed length message otherwise. |
| `PhoneNumber.MatchesDigitsIff` | src/components/PhoneNumberEl.jsx:26 | The anchored pattern `^\d{n}$` accepts exactly the strings of `n` characters from '0'..'9'. |
| `PhoneNumber.PatternIsLocalNumber` | src/components/PhoneNumberEl.jsx:26 | `/^\d{7}$/.test` is the predicate "length 7, every character a digit". |
| `PhoneNumber.MatchesDigits` | src/components/PhoneNumberEl.jsx:26 | The anchored pattern `^\d{n}$` read left to right. Its meaning is given by `MatchesDigitsIff`. |
| `PhoneNumber.IsLocalNumber` | src/components/PhoneNumberEl.jsx:26 | "Exactly seven characters, each in '0'..'9'". It equals the pattern by `PatternIsLocalNumber`. |
| `PhoneNumber.PrefixOptionsWellFormed` | src/components/PhoneNumberEl.jsx:20 | Five prefixes are offered, pairwise distinct, each three digits beginning "05". |

`PhoneNumber.PrefixOptions` is the constant list "052", "054", "050", "053",
"055", in that order.

## Left out

- JSX rendering, react-bootstrap controls and CSS: presentation only.
- The loading and error screens (lines 77-78 of `Appointments.jsx`): the
  model keeps the `loading` and `error` state they read, but not the render.
- The axios GET and DELETE requests and the `async`/`await` suspension. Their
  results are parameters. Overlapping cancel calls are not modelled.
- The `useAuth` context and `userData.id`, and so the URL of the fetch.
- `new Date(...)` parsing: the date is an abstract integer key.
- JavaScript's floating-point numbers: prices and dates are integers, so the
  comparators' subtractions are exact.
- `localeCompare` collation rules: names are compared lexicographically by
  Unicode scalar value.
- JavaScript strings are sequences of UTF-16 code units, and Dafny's `char`
  is a Unicode scalar value. So `length`, the `substring` indices in
  `DateLabel`, and the name order in `NameCompare` count scalar values, not
  code units. They differ from the source on characters outside the Basic
  Multilingual Plane.
- `Appointments.SortInPlace`: ties are not proved to keep their prior relative
  order. `Array.prototype.sort` is stable, and insertion sort is too, but only
  "ordered and a permutation" is proved.
- `Appointments.SortInPlace`: the model fixes one sorting algorithm.
  `Array.prototype.sort` leaves the algorithm, and so the exact sequence of
  swaps, to the engine.
- `console.log` and `console.error` output.
- `ComboBoxDropdown`: its source is not part of this model. The prefix it
  reports is taken as whatever value reaches `onSelectedValueChange`.
- The browser-level `type="number"` and `pattern` attributes of the input.
- The React event object: a change is modelled by its `target.value`.
