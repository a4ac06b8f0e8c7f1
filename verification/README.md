# Zaptop-web: the session store and the page state machines, in Dafny

Zaptop-web is a client-rendered rewards and payments web application. Most of it is presentational. The parts with state that can be stated exactly are small event handlers over immutable values. This project models them as pure transition functions and proves their contracts:

- **Session store** (`session.dfy`, module `Session`). This is the authentication context. It holds an authenticated flag, the current user, a loading flag, the two durable storage keys `authToken` and `user`, and the module-level roster of registered users. Its operations are mount, rehydrate, login, register (which refuses a duplicate email), logout (confirmed or cancelled) and the raw exported `setIsAuthenticated` setter.
- **Task-completion reducer** (`tasks.dfy`, module `Tasks`). It is shared by the video, survey, app and social task pages. Completing a task adds its points to a counter and appends its id to a completed list. The page offers the action only for ids that are not yet completed. The page modules (`video_tasks.dfy`, `survey_tasks.dfy`, `app_tasks.dfy`, `social_tasks.dfy`) add their tables and page-specific behaviour: the survey difficulty colours, and the social page's referral branch with its unguarded copy button.
- **Transaction history filter** (`history.dfy`). A category filter over a fixed list of six transactions.
- **Security switches** (`security.dfy`). A map from option id to on/off. Flipping one switch leaves the others unchanged.
- **Airtime purchase form** (`airtime.dfy`). Preset and custom amounts, the precedence rule that picks the final amount, the purchase-button predicate, and the reset after a confirmed purchase.

`wrappers.dfy` holds the `Option` and `Result` types used for `null` values and for the one operation that throws.

The main invariants are these:
- `Session.Valid`: the flag is set exactly when there is a user, an active session is mirrored in storage, and registered emails are pairwise distinct. It holds across any sequence of calls except the raw `setIsAuthenticated` setter (`Session.RunPreservesValid`).
- `Tasks.Valid`: the counter equals the worth of the completed list, and the list holds distinct ids of the table. It holds across any sequence of clicks on a guarded page: the video, survey and app pages, and the social page's listed rows (`Tasks.PlayValid`). The social page's copy button is unguarded and can repeat id 1, so that page keeps only the weaker `SocialTasks.Reachable` (`SocialTasks.PressesReachable`). It bounds the list by the table size and the counter by the table's total.

## Model

| member | source | states |
|---|---|---|
| Session.Mount | src/context/AuthContext.js:6-11 | The provider starts logged out, with no user and loading set. Storage and the roster are whatever exists when it mounts. Over a well-formed roster this state satisfies the invariant. |
| Session.InitialState | src/context/AuthContext.js:9-11 | On a fresh mount the provider is unauthenticated, has a null user, is loading, and satisfies the invariant. |
| Session.Rehydrate | src/context/AuthContext.js:14-24 | Loading ends in every case. The stored user is restored and the flag set exactly when a truthy token and a stored user are both present. Otherwise the session is untouched. Storage and roster are never changed. The invariant is preserved. |
| Session.Login | src/context/AuthContext.js:26-39 | Login always succeeds. The session is authenticated with a user whose email is the argument, with 1250 points and id 1. Both storage keys hold that same user. The roster and the loading flag are unchanged. |
| Session.FindByEmail | src/context/AuthContext.js:52 | The lookup finds nothing exactly when no roster entry has the email. Otherwise it returns the first roster entry with that email: every entry before it has a different email. |
| Session.Register | src/context/AuthContext.js:51-69 | Register fails exactly when the email is already in the roster. Otherwise it appends one user with id = old roster length + 1, 0 points and the given fields. It authenticates that same user and writes both storage keys with it. The invariant is preserved. |
| Session.Logout | src/context/AuthContext.js:81-97 | A confirmed logout clears the user and the flag and removes both storage keys. A cancelled logout leaves the whole state unchanged. |
| Session.SetIsAuthenticated | src/context/AuthContext.js:100 | The raw setter changes only the flag. The user, storage, roster and loading flag are untouched. |
| Session.SetIsAuthenticatedBreaksValid | src/context/AuthContext.js:100 | Starting from the valid logged-out state, the exported setter produces an authenticated state with no user, which breaks the invariant. |
| Session.Apply | src/context/AuthContext.js:52-56 | A register that throws leaves the session, storage and roster exactly as they were. |
| Session.ApplyPreservesValid | src/context/AuthContext.js:14-97 | Every call a consumer can make except the raw `setIsAuthenticated` setter, including a page reload, preserves the invariant. |
| Session.RunPreservesValid | src/context/AuthContext.js:52-65 | Over any sequence of calls except the raw `setIsAuthenticated` setter, roster emails stay pairwise distinct, the flag agrees with the user, and storage mirrors the active session. |
| Session.LoginSurvivesReload | src/context/AuthContext.js:16-39 | A reload followed by rehydrate after login restores the same user, authenticated. |
| Session.RegisterSurvivesReload | src/context/AuthContext.js:16-69 | A reload followed by rehydrate after a successful register restores the same user, authenticated. |
| Session.LogoutSurvivesReload | src/context/AuthContext.js:89-93 | After a confirmed logout, a reload finds no session. |
| Session.LoginDoesNotReserveEmail | src/context/AuthContext.js:26-52 | Login does not enter the roster, so a later register of the same email succeeds. On an empty roster that new account gets id 1, the same id as the login user. |
| Session.RegisterTwiceFails | src/context/AuthContext.js:52-56 | A second register with the same email throws the user-exists error and leaves the state as the first register left it. |
| Tasks.Complete | src/pages/tasks/video.js:41-42 | Completion keeps the old list as a prefix and puts the task id last. The id occurs once more than before, and the counter grows by the task's points. |
| Tasks.CompletePreservesConsistent | src/pages/tasks/video.js:28-42 | If the counter equals the summed points of the completed ids, it still does after any completion of a table task, whether or not the id was already there. |
| Tasks.CompleteIncreasesPoints | src/pages/tasks/video.js:10-14 | When all table points are positive, every completion strictly increases the counter. |
| Tasks.CompletePreservesValid | src/pages/tasks/video.js:91-124 | A completion offered by the guard (id not yet completed) keeps the counter consistent, the ids distinct, and the ids within the table. |
| Tasks.CompletedWithinTable | src/pages/tasks/video.js:84 | In a valid state the completed list is no longer than the table. |
| Tasks.PointsWithinTotal | src/pages/tasks/app.js:15-48 | In a valid state the counter is at most the sum of the points of the whole table. |
| Tasks.PlayValid | src/pages/tasks/video.js:28-124 | Any sequence of clicks on a guarded page keeps the state valid, the list within the table size, and the counter within the table total. |
| Tasks.InitialValid | src/pages/tasks/video.js:28-29 | The initial state has 0 points and an empty list, and it is valid for every table. |
| VideoTasks.VideoTableFacts | src/pages/tasks/video.js:9-15 | The video table has five rows with distinct ids and positive points, worth 1000 in all. |
| VideoTasks.HandleWatch | src/pages/tasks/video.js:31-42 | Watching a video keeps the counter equal to the worth of the list, strictly increases it, and appends the video id. |
| VideoTasks.WatchSessionBounds | src/pages/tasks/video.js:84-124 | From the initial state, any clicks leave at most 5 completed videos with no repeated id, and at most 1000 points. |
| SurveyTasks.DifficultyColor | src/pages/tasks/survey.js:87-98 | The function is total. It returns the slate default exactly for labels other than Easy, Medium and Hard. |
| SurveyTasks.DifficultyColorsDistinct | src/pages/tasks/survey.js:87-98 | Easy, Medium and Hard map to three different class strings. |
| SurveyTasks.SurveyTableFacts | src/pages/tasks/survey.js:16-49 | The survey table is well formed and worth 2000 in all. Every difficulty is Easy, Medium or Hard, so no badge reaches the default. |
| SurveyTasks.HandleComplete | src/pages/tasks/survey.js:66-76 | Completing a survey keeps the counter equal to the summed points of the completed surveys, increases it, and appends the survey id. |
| SurveyTasks.SurveySessionBounds | src/pages/tasks/survey.js:149-193 | Behind the start-button guard, surveys are completed at most once each, at most four in all, worth at most 2000. |
| AppTasks.AppTableFacts | src/pages/tasks/app.js:15-48 | The app table has four rows with distinct ids and positive points, worth 1000+800+600+1500 = 3900. |
| AppTasks.HandleDownload | src/pages/tasks/app.js:64-75 | A download keeps the counter equal to the summed points of the installed apps, increases it, and appends the app id. |
| AppTasks.DownloadSessionBounds | src/pages/tasks/app.js:133-173 | Behind the download guard, installed ids are unique, there are at most four, and the points never exceed 3900. |
| SocialTasks.HandleTask | src/pages/tasks/social.js:67-100 | Both branches credit the task's points and append its id. Only the referral (id 1) writes to the clipboard, and the text written ends with the referral code. The loading and "Task Completed" dialogs are shown exactly when there is no clipboard write. |
| SocialTasks.SocialTableFacts | src/pages/tasks/social.js:171 | The listed rows are `socialTasks.slice(1)`: three rows, none of them the referral. |
| SocialTasks.PressPreservesReachable | src/pages/tasks/social.js:142-201 | One press on the page keeps the counter equal to the worth of the list and the ids within the table. Ids 2 to 4 occur at most once. |
| SocialTasks.InitialReachable | src/pages/tasks/social.js:64-65 | The page's initial state (0 points, empty list) satisfies the reachability invariant. |
| SocialTasks.PressesReachable | src/pages/tasks/social.js:142-201 | The same holds over any sequence of presses. Only id 1 can repeat. |
| SocialTasks.CopiesCreditEachTime | src/pages/tasks/social.js:142-147 | n presses of the unguarded copy button add 500·n points and append id 1 n times. |
| SocialTasks.ReferralOvercounts | src/pages/tasks/social.js:142-164 | Five copy presses make "Tasks Done" show 5 on a page with four tasks. The list holds only the single id 1. |
| History.KeepCategoryExact | src/pages/history.js:87 | The category filter returns only transactions of the category, taken from the input, as an order-preserving subsequence. Each transaction of the category occurs in the result exactly as often as in the input. |
| History.KeepCategoryCounts | src/pages/history.js:87 | Each transaction of the category occurs in the filtered list exactly as often as in the input, and no other transaction occurs in it. |
| History.Filtered | src/pages/history.js:84-87 | "All" returns the list unchanged. Any other filter returns exactly the matching transactions, each as often as it occurs in the input, in order, never more than the input. |
| History.UnmatchedFilterIsEmpty | src/pages/history.js:87 | A filter that no category equals yields the empty list. |
| History.FilteredWithinSix | src/pages/history.js:12-87 | The shown list never has more than the six transactions. |
| History.TasksLabelMatchesNothing | src/pages/history.js:26-87 | The "Tasks" button exists but matches no category, because the categories are spelled "Task". It shows nothing. |
| History.TaskCategoryUnreachable | src/pages/history.js:26-69 | The category "Task" holds transactions 2 and 4, but no filter button selects it. |
| History.InitialShowsAll | src/pages/history.js:82-86 | The initial filter "All" shows the whole list in order. |
| History.FilteredByLabel | src/pages/history.js:69-87 | With "Tasks" mapped to "Task", every non-"All" button returns exactly the transactions of its category, each as often as it occurs in the input, as a subsequence. |
| History.EveryLabelShowsRows | src/pages/history.js:12-87 | With the mapping, every filter button shows at least one transaction. |
| History.EveryRowHasALabel | src/pages/history.js:12-69 | With the mapping, every transaction is selected by some button other than "All". |
| Security.Toggle | src/pages/security.js:20-22 | Toggling negates the entry for the id, and a missing entry counts as off. It keeps every other entry and adds no key besides the id. |
| Security.ToggleTwice | src/pages/security.js:21 | Toggling an existing entry twice restores the original map. |
| Security.ToggleTwiceMissing | src/pages/security.js:21 | Toggling a missing entry twice leaves it present and off, so the map is not restored. |
| Security.ControlFor | src/pages/security.js:98-111 | A row renders a switch exactly when it has `toggle: true`, and the switch targets that row's id. A "Manage" button has a handler exactly for option 1. |
| Security.ControlsOfThePage | src/pages/security.js:9-18 | The switches are exactly options 2, 3 and 5, which are the keys of the initial map. Option 1 opens the change-password dialog. Option 4's button does nothing. |
| Security.PressesKeepKeys | src/pages/security.js:18-21 | Any sequence of switch presses keeps exactly the keys 2, 3 and 5. |
| Airtime.FinalAmount | src/pages/buy-airtime.js:24 | A truthy preset wins. A non-zero amount always comes from one of the two fields. The amount is 0 exactly when neither field holds a non-zero number. |
| Airtime.PresetTakesPrecedence | src/pages/buy-airtime.js:24 | While a preset is selected, the custom field has no effect on the amount. |
| Airtime.AmountFollowsLastChoice | src/pages/buy-airtime.js:24-133 | Picking a preset makes it the amount. Typing a custom amount makes its parsed value the amount if it is non-zero, and 0 otherwise. |
| Airtime.Step | src/pages/buy-airtime.js:26-133 | A preset clears the custom field and a custom entry clears the preset; neither touches the network or the phone number. Picking a network sets the network and nothing else. Typing a phone number sets the phone number and nothing else. A confirmed purchase resets all four fields. A cancelled purchase changes nothing. |
| Airtime.StepPreservesReachable | src/pages/buy-airtime.js:106-133 | Each on-screen action keeps at most one amount source set and any preset among the listed amounts. An amount is never set without a network. |
| Airtime.InitialReachable | src/pages/buy-airtime.js:19-22 | The empty form the page starts with satisfies the reachability invariant. |
| Airtime.RunPreservesReachable | src/pages/buy-airtime.js:106-142 | The same holds over any sequence of on-screen actions. |
| Airtime.PurchaseIgnoresNetwork | src/pages/buy-airtime.js:142 | Whether the purchase button shows does not depend on the network. |
| Airtime.PurchaseResets | src/pages/buy-airtime.js:35-46 | A confirmed purchase returns the form to its initial values. The amount section and the purchase button are then hidden and the amount is 0. |
| Airtime.PresetsPositive | src/pages/buy-airtime.js:16 | There are six presets, all positive. |

## Left out

- Dialogs, timers and async waits: the SweetAlert dialogs are not modelled. The answer to the logout and purchase confirmations is an input bit. The social page's dialogs are reduced to booleans in `SocialTasks.Outcome`.
- SocialTasks.HandleTask: the referral branch's clipboard write is assumed to succeed. In the source a rejected write, or a missing `navigator.clipboard`, throws before the points are credited, and that rejection path is not modelled.
- Navigation (`router.push`), `navigator.clipboard` (its text is returned as a value), and the `typeof window` check: these are browser plumbing. The model assumes a browser.
- JSON: `JSON.stringify` and `JSON.parse` are taken as an exact round trip. The storage `user` key holds the user record itself, so a malformed stored string is not modelled.
- Session.User: `id` is kept as the number whose decimal string the source stores (`'1'` for login, `(users.length + 1).toString()` for register).
- Session.Apply: a reload remounts the provider with an empty roster, because `users` is module state that a full page reload re-creates. A remount that keeps the module alive is `Session.Mount` called with the old roster.
- Airtime.Form: `customAmount` is the value `parseInt` returns for the typed text, with `None` for NaN or an empty field. JavaScript string parsing itself is not reproduced.
- Route guard: `ProtectedRoute` and `ThemeContext` are imported by the pages, but their sources are not part of this model.
- Presentational pages are not modelled: dashboard, profile, bills, the task index pages, landing, edit-profile (its save only shows a dialog), buy-data (a stub), support, `_app` and the layout's navigation highlight.
- The login and register pages are not modelled, because they only forward form fields to the context.
- Row titles, descriptions, durations, icons, animation variants and class names are dropped, except the difficulty classes that `getDifficultyColor` returns. History rows keep only id, kind, title and category. Security rows keep only id, title and the `toggle` flag.

Two invariants the code does not keep everywhere:
- The flag is meant to be set exactly when there is a user. The exported `setIsAuthenticated` can break this (`Session.SetIsAuthenticatedBreaksValid`). `Session.Valid` holds for every other operation.
- A logged-out store can keep one storage key, because rehydrate never clears storage. The invariant therefore states only that a logged-out store, once loading ends, never has a non-empty token together with a stored user.

## Findings

| source | as written | input that shows it | evidently intended | confidence | as-written member | corrected member |
|---|---|---|---|---|---|---|
| src/pages/history.js:69 | The filter button is labelled "Tasks" and compared verbatim against categories spelled "Task" | Pressing "Tasks" shows an empty list, although transactions 2 and 4 are task rewards | The "Tasks" button selects the "Task" category | medium, not executed | History.TasksLabelMatchesNothing | History.EveryLabelShowsRows |
