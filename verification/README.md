# Incident tracker: roles, session, status gate and derived views

This project models the decision logic of a small municipal incident
tracker, a React single-page application. There are three operator roles:
supervisor, coordinator and handler. The model covers:

- the role-to-permission table, which only the `RoleInfo` card component
  reads (and no page or layout renders that card);
- the authentication context: the optional current user, the placeholder
  login, logout, and the `hasPermission` role-membership guard that the
  incident list and detail pages use to decide what to render;
- the incident detail page: which record it shows (stored copy or fixture),
  the role- and state-dependent status panel, the status update, and note
  appending;
- the incident list page: the status filter and search box, the create
  button's role gate, and the status labels;
- the dashboard: stored statuses laid over the fixture incidents, the
  per-status counts, and the five-row recent table.

The model is purely functional. React state becomes explicit values such as
`IncidentDetail.Page` and `Auth.AuthState`, and each handler or effect
becomes a function from the old state to the new one. Browser storage
becomes a `map<string, Incident>` keyed by the full key `incident_<id>`.
The JavaScript built-ins the logic depends on are modelled in `JsBuiltins`:
`Array.prototype.includes`, `filter`, `String.prototype.includes`, `trim`
(with the ECMAScript whitespace and line-terminator code points) and the
UTF-16 `length`.

The permission table (`src/utils/permissions.ts`) and the role descriptions
there and on the login page suggest more than the code enforces; the model
follows the code:

- No gate consults the permission table. The list and detail pages gate
  through role lists passed to `hasPermission`. The dashboard's role cards
  and the detail page's handler hint compare `user?.role` directly; they
  are display text and are not modelled. The dashboard never calls
  `hasPermission`.
- Adding a note has no role gate at all. Any signed-in user on the detail
  page can add one.
- A refused action yields no "denied" result. The control is simply not
  rendered, or it is disabled. `IncidentDetail.ClickStatusUpdate` models
  this as `None`: the click cannot happen.
- There is no create, delete, assign or priority-edit operation. The create
  button only shows an alert.
- There is no transition graph. Any of the three statuses can follow any
  other.

One edge case is modelled as written. When the route supplies no id, the
load effect reads the key `incident_undefined` but looks up fixture `'1'`.
It then saves that fixture under `incident_undefined`. The router always
supplies an id, so this case is not reachable through the routes.

## Model

| member | source | states |
|---|---|---|
| JsBuiltins.Includes | src/context/AuthContext.tsx:46 | the left-to-right scan behind `includes` is true exactly when the element is in the list |
| JsBuiltins.Filter | src/pages/IncidentList.tsx:100-106 | the filtered list is no longer than its input, every kept element passes the test, every kept element comes from the input, and every passing input element is kept |
| JsBuiltins.KeptIndices | src/pages/IncidentList.tsx:100 | the positions the filter keeps are strictly increasing, in range, and pick out the filtered elements in order |
| JsBuiltins.KeptIndicesExact | src/pages/IncidentList.tsx:100 | a position is kept exactly when its element passes the test |
| JsBuiltins.FilterIsSubsequence | src/pages/IncidentList.tsx:100 | filtering returns an order-preserving subsequence of its input |
| JsBuiltins.FilterAllKept | src/pages/IncidentList.tsx:100-106 | when every element passes, the filter returns its input unchanged |
| JsBuiltins.OccursInTail | src/pages/IncidentList.tsx:103-104 | when the needle is not a prefix of a non-empty haystack, it occurs in the haystack exactly when it occurs in the haystack minus its first character |
| JsBuiltins.StringIncludes | src/pages/IncidentList.tsx:103-104 | string `includes` is true exactly when the needle occurs at some position of the haystack; the empty needle occurs in every string |
| JsBuiltins.TrimStart | src/pages/IncidentDetail.tsx:161 | the result is a suffix of the input, only whitespace was dropped, and it does not start with whitespace |
| JsBuiltins.TrimEnd | src/pages/IncidentDetail.tsx:161 | the result is a prefix of the input, only whitespace was dropped, and it does not end with whitespace |
| JsBuiltins.Trim | src/pages/IncidentDetail.tsx:161 | `trim()` returns a contiguous window of the input with only whitespace removed on either side; the window neither starts nor ends with whitespace; it is the empty (falsy) string exactly when every character is JavaScript whitespace |
| JsBuiltins.Utf16Length | src/context/AuthContext.tsx:30 | a string's UTF-16 length is its number of characters plus the number of characters above U+FFFF, so it lies between the character count and twice that |
| JsBuiltins.AstralPositionsStep | src/context/AuthContext.tsx:30 | appending a character adds its position to the set of characters above U+FFFF exactly when it lies above U+FFFF |
| JsBuiltins.Utf16LengthAppend | src/context/AuthContext.tsx:30 | the UTF-16 length of a concatenation is the sum of the two lengths |
| Auth.Restore | src/context/AuthContext.tsx:23-26 | at start-up the stored user, or none, becomes the current user, and the two agree |
| Auth.EmailRoundTrip | src/context/AuthContext.tsx:34 | the e-mail is the username followed by `@example.com`, and stripping that suffix gives the username back |
| Auth.Login | src/context/AuthContext.tsx:28-42 | login succeeds iff the username is non-empty and the password has at least six UTF-16 code units; on failure the session is unchanged; on success the user has id `1`, the given username and role, the derived e-mail, and is also the stored user |
| Auth.Logout | src/context/AuthContext.tsx:49-52 | after logout there is no user, so `isAuthenticated` is false, and nothing is stored |
| Auth.HasPermission | src/context/AuthContext.tsx:44-47 | the guard holds iff a user is signed in and that user's role is in the list |
| Auth.NoUserNoPermission | src/context/AuthContext.tsx:45 | with nobody signed in the guard is false for every role list |
| Auth.EmptyListDenies | src/context/AuthContext.tsx:46 | an empty role list admits nobody |
| Auth.HasPermissionMonotonic | src/context/AuthContext.tsx:46 | a list containing every role of another list admits everyone the smaller list admits |
| Auth.TransitionsKeepConsistent | src/context/AuthContext.tsx:23-52 | login and logout keep the stored user equal to the current user, so a reload after login restores the same session |
| JsBuiltins.Utf16LengthBmp | src/context/AuthContext.tsx:30 | for characters inside the Basic Multilingual Plane, the UTF-16 length is the character count |
| Auth.PasswordLengthIsUtf16 | src/context/AuthContext.tsx:30 | three characters above U+FFFF pass the length check; five ordinary characters do not |
| Auth.SixCharactersSuffice | src/context/AuthContext.tsx:30 | a non-empty username with any password of six or more characters is accepted |
| Permissions.AllPermissionsListed | src/utils/permissions.ts:8-16 | the supervisor's list names every one of the eight permissions |
| Permissions.RolePermissions | src/utils/permissions.ts:18-42 | every role's list is free of duplicates and holds exactly the permissions of the hierarchy: everything for supervisors, everything but create and delete for coordinators, view, update-status and add-notes for handlers |
| Permissions.SupervisorHasAll | src/utils/permissions.ts:19-28 | the supervisor holds all eight permissions |
| Permissions.CoordinatorHasSix | src/utils/permissions.ts:29-36 | the coordinator holds six permissions, without `create_incident` and `delete_incident` |
| Permissions.HandlerHasThree | src/utils/permissions.ts:37-41 | the handler holds exactly `view_incidents`, `update_status` and `add_notes` |
| Permissions.SubsetOfSupervisor | src/utils/permissions.ts:18-42 | every role's list is contained in the supervisor's |
| Incidents.StatusNameRoundTrip | src/pages/IncidentDetail.tsx:13 | each status name parses back to its status, and a string parses to a status only if it is that status's name |
| Incidents.StorageKeyInjective | src/pages/IncidentDetail.tsx:126 | distinct incident ids never share a storage key |
| IncidentDetail.Load | src/pages/IncidentDetail.tsx:124-148 | a stored record is shown and storage is left alone; otherwise the fixture for `id` (or `'1'` when the id is absent or empty) is shown and saved under the key; with neither, nothing new is shown; the chosen status starts at the shown incident's status; loading always ends |
| IncidentDetail.StoredRecordWins | src/pages/IncidentDetail.tsx:131-136 | while a record is stored under the key, the fixtures make no difference to the load |
| IncidentDetail.LoadIsStable | src/pages/IncidentDetail.tsx:131-140 | a second load shows the same incident and writes nothing |
| IncidentDetail.StatusPanelOffered | src/pages/IncidentDetail.tsx:267 | the status panel is shown iff a user is signed in and is a supervisor or coordinator, or is a handler and the incident's current status is in-progress |
| IncidentDetail.UpdateDisabled | src/pages/IncidentDetail.tsx:285 | the update button is disabled iff the user is a handler and the incident is not in-progress |
| IncidentDetail.OfferedPanelIsEnabled | src/pages/IncidentDetail.tsx:267-285 | whenever the panel is shown its button is enabled, so the disabled condition never takes effect |
| IncidentDetail.HandleStatusUpdate | src/pages/IncidentDetail.tsx:150-158 | with an incident shown, its status becomes the chosen one, every other field is unchanged, and the record is saved under its key while all other keys are untouched; without an incident nothing changes |
| IncidentDetail.ClickStatusUpdate | src/pages/IncidentDetail.tsx:267-288 | the update goes through exactly when loading is over, an incident is shown, and a supervisor or coordinator is signed in, or a handler while the incident's prior status is in-progress; it then performs the status update |
| IncidentDetail.GateIgnoresTarget | src/pages/IncidentDetail.tsx:272-280 | whether the update goes through does not depend on the chosen status, and where the update is allowed, each of the three statuses can be set |
| IncidentDetail.HandlerScenario | src/pages/IncidentDetail.tsx:267 | a handler cannot move an open incident; a supervisor moves it to in-progress; the handler can then resolve it |
| IncidentDetail.UpdateSurvivesReload | src/pages/IncidentDetail.tsx:124-158 | after a status update, loading the page for the same id shows the updated incident |
| IncidentDetail.HandleAddNote | src/pages/IncidentDetail.tsx:160-172 | a draft that is all whitespace, or a page with no incident, changes nothing; otherwise the untrimmed draft is appended to the notes, every other field is unchanged, the record is saved under its key and the draft is cleared |
| IncidentDetail.AddNoteExtends | src/pages/IncidentDetail.tsx:162-165 | a note adds exactly one entry, at the end, and keeps the earlier notes as a prefix |
| IncidentDetail.AddSameNoteTwice | src/pages/IncidentDetail.tsx:164 | adding the same text twice records it twice: notes are not deduplicated |
| IncidentList.Keeps | src/pages/IncidentList.tsx:100-105 | the filter test holds iff the filter is `all` or the incident's status name, and the lowered search term occurs in the lowered title or the lowered location |
| IncidentList.KeepsIffMatches | src/pages/IncidentList.tsx:100 | the function value handed to `filter` applies that same test to every incident |
| IncidentList.FilteredIncidents | src/pages/IncidentList.tsx:100-106 | the filtered list is an order-preserving subsequence of the incidents, no longer than them, containing every matching incident and only matching ones |
| IncidentList.FilteredAtMatchingPositions | src/pages/IncidentList.tsx:100-106 | the filtered list consists of the incidents at exactly the matching positions, in increasing order |
| IncidentList.AllWithEmptySearchShowsEverything | src/pages/IncidentList.tsx:101-104 | with filter `all` and an empty search term, the filtered list is the whole list |
| IncidentList.UnknownFilterShowsNothing | src/pages/IncidentList.tsx:101 | a filter value that is neither `all` nor a status name shows nothing |
| IncidentList.CreateButtonVisible | src/pages/IncidentList.tsx:139-146 | the create button is shown iff a supervisor or coordinator is signed in |
| IncidentList.StatusLabel | src/pages/IncidentList.tsx:108-118 | each of the three status names gets its fixed label; every other string is returned unchanged |
| IncidentList.LabelsDistinguishStatuses | src/pages/IncidentList.tsx:108-118 | the three labels are pairwise distinct and none of them is a status name |
| Dashboard.MergeOverrides | src/pages/Dashboard.tsx:78-86 | the merge keeps length and order, takes only the status from a stored record, keeps every other field from the fixture, and passes an incident with nothing stored through unchanged |
| Dashboard.MergeIdempotent | src/pages/Dashboard.tsx:79-86 | merging a second time against the same storage changes nothing |
| Dashboard.DashboardShowsSavedStatus | src/pages/Dashboard.tsx:80-83 | a status saved by the detail page's update is the status the dashboard shows for that incident |
| Dashboard.NoteFreezesShownStatus | src/pages/Dashboard.tsx:80-83 | after a note is added, the dashboard shows the status the detail page had for that incident |
| Dashboard.PositionsWithStep | src/pages/Dashboard.tsx:92-94 | appending an incident adds its own, new position to the positions with a status exactly when the incident has that status |
| Dashboard.FilterCountsPositions | src/pages/Dashboard.tsx:92-94 | the length of the status filter equals the number of positions holding that status |
| Dashboard.CountStatus | src/pages/Dashboard.tsx:92-94 | a status count is the number of positions in the list holding an incident with that status, and is at most the list length |
| Dashboard.CountStatusStep | src/pages/Dashboard.tsx:92-94 | an empty list counts zero, and an appended incident adds one to the count of its own status only |
| Dashboard.CountsPartition | src/pages/Dashboard.tsx:91-94 | the open, in-progress and resolved counts add up to the number of incidents |
| Dashboard.ComputeStats | src/pages/Dashboard.tsx:90-95 | `total` is the number of incidents; `open`, `inProgress` and `resolved` are the numbers of positions with that status; no count exceeds the total; the three counts sum to it |
| Dashboard.RecentIncidents | src/pages/Dashboard.tsx:173 | the recent table is a prefix of the incidents with at most five rows: exactly five when there are that many, otherwise all of them |
| Dashboard.DashboardView | src/pages/Dashboard.tsx:79-96 | the total is the number of fixture incidents, each status count is the number of positions of the merged list with that status, and the recent rows are the first rows of the merged list |
| Dashboard.SavedStatusIsCounted | src/pages/Dashboard.tsx:80-94 | after the detail page saves a status for a fixture, that fixture's position is counted under the new status and under no other |

## Left out

- JsBuiltins.Utf16Length: strings are sequences of Unicode scalar values, so the lone surrogates a JavaScript string can hold are not represented, and neither is their one-unit length.
- Rendering, styles, colours, priority labels, role names and role descriptions, alerts, routing and navigation (`src/App.tsx`, `src/components/Layout.tsx`, `src/components/RoleInfo.tsx`, `src/pages/Login.tsx`). They carry no decision logic. `src/components/ProtectedRoute.tsx` is not part of this model.
- The JSON encoding of browser storage. Storage is an abstract map from key to record, and the stored user is an abstract slot in `Auth.AuthState`.
- The map widget, its icon, and the `lat`/`lng` coordinates. They are floating-point values used only for display.
- Case folding. `toLowerCase` is the function parameter `lower`, applied to both sides of the substring test. Where the empty search term matters, the model assumes `lower("") == ""`.
- React hooks and the asynchronous `login`. They are modelled as sequential pure transitions.
- The hard-coded fixture incidents. They are a parameter of the load (`mocks`) and of the dashboard (`incidents`).
- The list page's and the dashboard's own narrower `Incident` interfaces. Both use the detail page's full record, minus the coordinates.
- Create, delete, assign and priority edits, and any gating on permissions rather than roles. The application has none of them.
- IncidentDetail.Load: the fixture lookup `mockIncidents[id || '1']` reads a plain object literal, so an id naming a member inherited from `Object.prototype` (such as `constructor` or `__proto__`) finds a truthy non-incident. The page then stores a non-record and fails when rendering it. The model's fixtures are a map of own keys only, so for such ids it shows nothing. This inherited-member case is not modelled.
- Auth.IsAuthenticated: no contract of its own. It is `!!user`, and its link to logout is stated on `Auth.Logout`.
- IncidentDetail.ChooseStatus: no contract of its own. It is the select's change handler (`setNewStatus`, `src/pages/IncidentDetail.tsx:274`), and its effect is stated through `GateIgnoresTarget` and `HandlerScenario`. The model lets a status be chosen in every state, while the source renders the select only inside the status panel (:267) and disables it under the button's own condition (:275). This is harmless: `ClickStatusUpdate` applies the same gate before anything is saved, and `OfferedPanelIsEnabled` shows the disabling condition never holds while the panel is shown.
- IncidentDetail.TypeNote: no contract of its own. It is the textarea's change handler (`setNotes`, `src/pages/IncidentDetail.tsx:330`), and its effect is stated through `HandleAddNote` and `AddSameNoteTwice`.
