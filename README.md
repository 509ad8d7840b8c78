# Notification list: link resolution, redirect dialog and fetch helpers

A Dafny model of the notification feature of a React/Redux front end. It covers two parts.

- **The list view** (`content.jsx`) covers three things:
  - how a notification's `webLink` is resolved;
  - the redirect dialog to the other system;
  - what the list, its footer and its overlay show.

  On the primary system (`REACT_APP_SYSTEM` equal to `S_SPORTNECT`), the link is rewritten into an in-app path. On any other system:
  - an admin link opens the redirect dialog;
  - any other link is first sent to the access-check endpoint, whose answer either opens the dialog or navigates inside the app.
- **The request helpers** (`helpers.jsx`):
  - `fetch`, `checkNewNotifications` and `setReadNotifications`, which toggle busy flags around their HTTP requests and dispatch their results to the store;
  - the containers' default local state.

The global Redux store is the class `Store.Store`:
- its state holds the busy flags, the notification list and cursor, the unread flag, the popup lock and the auth tokens;
- it keeps one log of everything observable, in order. That is each dispatched action, plus each effect on the outside world: HTTP requests, the confirmation dialog, a new tab and router navigation.
- `Valid()` keeps the state equal to the initial state with every logged action replayed through the reducer `Store.Reduce`.

Each asynchronous helper is split into two methods:
- one that runs up to the request;
- one that runs when the response arrives, taking the response as a parameter.

JavaScript string behaviour is written out in `JsString`:
- `split` scans for non-overlapping occurrences from the left;
- `replace` with a string pattern changes only the first occurrence;
- template literals print a missing value as `undefined` and a `null` one as `null` (a link is `Wrappers.TextValue`: missing, `null` or text);
- `Object.entries` of a spread object keeps insertion order.

Modules: `Wrappers` (Option), `JsString`, `Store`, `Helpers`, `Content`.

Three points where the code does less than its description suggests. The model follows the code in all three.
- Links on the primary system are described as normalised to a single leading slash. The code prefixes `/` and collapses only the first `//`. So a link that starts with `//` keeps two leading slashes (`Content.RootedSingleSlash`, `Content.DoubleSlashLinkKept`).
- Links containing `http` are described as having protocol and host stripped. The code keeps only the piece between the first and the second `//`, so a second `//` cuts the path short: `https://host/a//b` gives `/a`, and `https://host/login?next=https://x/y` gives `/login?next=https:` (`Content.WebLinkTruncated`).
- The popup lock is described as held while the redirect dialog is open. Only the cancel handler releases it. After a confirmation it stays set, and nothing in the modelled code clears it (`Content.DialogLock`).

## Model

| member | source | states |
|---|---|---|
| Content.StripOrigin | content.jsx:116 | A link without `//` yields the text `undefined`, as the optional chain does. |
| Content.IsLegacyAbsolute | content.jsx:106 | Only a text link of at least four characters can contain `http`; a missing or `null` link never does. |
| Content.IsAdminLink | content.jsx:79 | Only a text link of at least seven characters can contain `/admin/`; a missing or `null` link never does. |
| Content.PrimaryLink | content.jsx:106-120 | On the primary system, every resolved link starts with `/`. |
| Content.Rooted | content.jsx:120 | `/${x}` with its first `//` collapsed always starts with `/`. |
| Content.RootedIdempotent | content.jsx:120 | Rooting an already rooted path returns it unchanged. |
| Content.RootedSingleSlash | content.jsx:114-120 | A rooted path has a second `/` exactly when the link itself starts with `//`. Only the first `//` is collapsed, so "exactly one leading slash" holds for every other link. |
| Content.DoubleSlashLinkKept | content.jsx:120 | `//a` resolves to `//a`, which keeps two leading slashes. |
| Content.RootedAbsorbsSlash | content.jsx:120 | A link that starts with exactly one `/` is left as it is. |
| Content.RootedPlain | content.jsx:120 | With no `//` after the added slash, rooting only prefixes `/`. |
| Content.RelativeLinks | content.jsx:120 | A link without `http` or `//`, such as `y`, resolves to `/y`, and so does `/y`. |
| Content.ExampleRelativeLinks | content.jsx:120 | `a/b` and `/a/b` both resolve to `/a/b`. |
| Content.PrimaryLinkIdempotent | content.jsx:106-120 | For a link without `http`, resolving the resolved path again gives the same path. |
| Content.NoWordAfterRooting | content.jsx:120 | Collapsing a `//` never creates a slash-free word such as `http` in the link. |
| Content.WordSurvivesCollapse | content.jsx:120 | An occurrence of a slash-free word after the collapse was already an occurrence before it. |
| Content.SplitAfterScheme | content.jsx:116 | `scheme//rest` splits on `//` into scheme and rest when no other `//` follows. |
| Content.SplitAfterHost | content.jsx:116 | `host/path` splits on `/` into the host followed by the pieces of the path. |
| Content.NoDoubleSlashInPath | content.jsx:116-117 | A path taken from after the host holds no `//` once a slash is prefixed. |
| Content.AbsoluteLink | content.jsx:106-117 | A link `scheme//host/path` containing `http` resolves to `/path`, when scheme and host hold no `/` and no second `//` follows in `host/path`. |
| Content.AbsoluteLinkHostOnly | content.jsx:106-117 | A link `scheme//host` containing `http` resolves to `/`. |
| Content.WebSchemeIsLegacy | content.jsx:106 | With the case-insensitive test, every `http:` or `https:` link counts as a link with a host to strip. |
| Content.WebLinkWithPath | content.jsx:106-117 | `http(s)://host/path` resolves to `/path`, when the host holds no `/` and no second `//` follows in `host/path`. For instance, `https://host/a/b` gives `/a/b`. |
| Content.StripAbsolute | content.jsx:116 | The path taken from `scheme//host/path` is `path`, when scheme and host hold no `/` and no second `//` follows in `host/path`. |
| Content.StripTruncated | content.jsx:116 | The path taken from `scheme//host/p//q` is `p`, for a non-empty `p` not ending in `/`: everything from the second `//` on is dropped. |
| Content.WebLinkTruncated | content.jsx:106-117 | `http(s)://host/p//q` resolves to `/p` (non-empty `p` not ending in `/`, no `//` in `host/p`). For instance, `https://host/a//b` gives `/a`. |
| Content.FirstDoubleSlash | content.jsx:116 | Splitting `a//q` on `//` gives `a` first, when `a` holds no `//` and does not end in `/`. |
| Content.WebLinkHostOnly | content.jsx:106-117 | `http(s)://host` resolves to `/`. |
| Content.SlashFreeRooted | content.jsx:120 | A link without any `/` is rooted by prefixing `/`. |
| Content.UndefinedRooted | content.jsx:116-120 | The text `undefined` roots to `/undefined`. |
| Content.NullLink | content.jsx:68-120 | A `null` link resolves to `/null` on the primary system. Elsewhere it is no admin link, so it is sent to the access check as `url: null`. |
| Content.UndefinedPaths | content.jsx:106-120 | A link with `http` but no `//`, and a missing (`undefined`, not `null`) link, both resolve to `/undefined`. |
| Content.CallPopupToSportnect | content.jsx:27-35 | Locks the popup, then shows the confirmation dialog. The rest of the state stays as it was. |
| Content.ConfirmRedirect | content.jsx:37-48 | Opens exactly `RedirectUrl(webLink, tokens)`, built from the tokens in the store at confirmation. It dispatches nothing, so the popup stays locked. |
| Content.CancelRedirect | content.jsx:49-54 | Unlocks the popup and changes nothing else. |
| Content.DialogLock | content.jsx:30-54 | Over a whole dialog, the lock is set on opening, still set after confirmation, and released only by cancellation. Neither the busy flags nor the list change. |
| Content.RedirectParams | content.jsx:38-41 | The redirect parameters hold the link under `callback`, and every other key has its token's value. |
| Content.RedirectUrl | content.jsx:43-47 | The opened URL starts with the link followed by `?`. |
| Content.RedirectReadBack | content.jsx:38-47 | Cut at its `?` and parsed back, the opened URL gives the link and the tokens with `callback` set to the link. Every other token keeps its value. `callback` takes an existing token's place, else comes last. |
| Content.AmpersandSplitsValue | content.jsx:43-45 | A one-parameter query whose value holds `&` reads back as two parameters. |
| Content.UnencodedAmpersand | content.jsx:38-47 | Nothing is encoded. An `&` inside the link cuts `callback` short and adds a parameter. |
| JsString.Assign | content.jsx:38-41 | The spread object with `callback` gives back the new value for `callback` and the old value for every other key. It keeps the key order, adding `callback` last only when it is new, and keeps keys distinct. |
| JsString.QueryRoundTrip | content.jsx:43-45 | `key=val` entries joined by `&` parse back to the same entries, provided keys hold no `&` or `=` and values hold no `&`. |
| JsString.QueryStringAvoids | content.jsx:43-45 | A character found in no key or value, and not a separator, is absent from the query string. |
| Content.Resolve | content.jsx:68-121 | The primary system always yields an in-app path, the resolved link. Elsewhere the dialog opens exactly for admin links. |
| Content.GetRedirectLink | content.jsx:68-121 | Returns the decision of `Resolve` with its effects. The primary system logs nothing. An admin link logs the lock and the dialog. Any other link logs the `notificationsCheckAccess` toggle, then the access-check request for the link. |
| Content.AdminLinkSkipsAccessCheck | content.jsx:78-80 | An admin link sends no request and does not toggle `notificationsCheckAccess`. |
| Content.SettleEvents | content.jsx:89-103 | The settled access check always ends with the `finally` toggle. |
| Content.AccessCheckSettled | content.jsx:89-103 | Logs exactly the settled effects of the outcome. |
| Content.SettleChoice | content.jsx:92-96 | An answer of type `other` opens the dialog and navigates nowhere. Any other answer pushes the parsed path and opens no dialog. A failure does neither. |
| Content.SettleDispatches | content.jsx:92-103 | The settled effects dispatch at most the dialog's lock, then the toggle. |
| Content.AccessCheckCycle | content.jsx:83-103 | A whole access check toggles `notificationsCheckAccess` exactly twice, whatever the outcome. Every busy flag ends where it started. The popup ends locked exactly when the answer was of type `other` or it was already locked. |
| Content.ToggleAround | content.jsx:83-103 | Two toggles of one section around at most one popup lock restore every busy flag. |
| Content.Truthy | content.jsx:180 | Only a number or a text cursor can be truthy; `null` and `undefined` never are. |
| Content.RowOf | content.jsx:154-176 | A row is keyed by the notification's id and shows its image and message. It has an `href` exactly on the primary system, and that `href` starts with `/`. A click toggles the container exactly on the primary system. |
| Content.Render | content.jsx:128-200 | One row per notification; the empty-state message never shows beside a row; "load more" and "show all" never show together; the overlay shows exactly when `notificationsCheckAccess` is busy. |
| Content.EmptyMessage | content.jsx:147-152 | The empty-state message shows exactly when nothing is busy and the list has no entries. No row is shown beside it. |
| Content.RowsOfRender | content.jsx:154-160 | There is one row per notification, in order, keyed by id. On the primary system, `href` is the resolved path and a click toggles the container. Elsewhere there is no `href` and a click resolves the link. |
| Content.Footer | content.jsx:180-195 | "Load more" shows exactly when the cursor is truthy and `loadMoreButton` is set. "Show all" shows exactly when `loadMoreButton` is falsy. Never both show, and neither shows exactly when `loadMoreButton` is set but the cursor is falsy. |
| Content.OverlayDuringAccessCheck | content.jsx:197-205 | The overlay appears with the access check's first toggle and is gone once the check settles. |
| Store.Reduce | content.jsx:83-86 | A toggle flips its own flag and no other. No action touches the tokens. |
| Store.ReplayBusy | helpers.jsx:23-32 | After a run of actions, a busy flag is its old value flipped once per toggle of that section. |
| Store.Store.Dispatch | helpers.jsx:23-26 | The new state is the reducer applied to the old state. The action is appended to the log. |
| Store.Store.Emit | helpers.jsx:28 | An outside effect is appended to the log and leaves the state unchanged. |
| Helpers.FetchCursor | helpers.jsx:17 | The chosen cursor is `null` only without a reset and with a `null` stored cursor. |
| Helpers.FetchRefused | helpers.jsx:16-19 | A busy `events` section always refuses; otherwise only a `null` stored cursor without a reset does. |
| Helpers.RequestUrl | helpers.jsx:28-82 | Every request URL lies below the API base URL. |
| Helpers.RequestUrlsDiffer | helpers.jsx:28-82 | The page, unread-list, mark-read and access-check requests go to four different URLs. |
| Helpers.Fetch | helpers.jsx:12-28 | A refused fetch sends nothing and changes nothing. Otherwise it logs the `notifications` toggle and then the page request with `limit` and the chosen cursor. |
| Helpers.FetchDefault | helpers.jsx:12-28 | `fetch()` and `fetch(true)`, with the default page size: the same guard and log as `Fetch`, and any request sent asks for `limit` 20. |
| Helpers.DefaultLimitText | helpers.jsx:12-28 | The default page size appears in the URL as `limit=20`. |
| Helpers.FetchSettled | helpers.jsx:28-40 | When the page arrives, it logs the toggle, then `NOTIFICATIONS_FETCHED` with the data, the meta and `reset`. |
| Helpers.NullCursorRefuses | helpers.jsx:17-21 | Without a reset, a `null` stored cursor refuses the fetch. |
| Helpers.ResetRefusedOnlyWhenBusy | helpers.jsx:17-19 | A reset always asks from cursor 0, so only the `events` flag can refuse it. |
| Helpers.PlainFetchGuard | helpers.jsx:16-19 | Without a reset, the fetch goes ahead exactly when the cursor is not `null` and `events` is not busy. |
| Helpers.GuardIgnoresNotificationsFlag | helpers.jsx:16-26 | The guard's verdict is the same for every value of the `notifications` flag that the helper toggles. |
| Helpers.InFlightFetchDoesNotBlock | helpers.jsx:16-26 | After an accepted fetch's first toggle, a second fetch is still accepted. |
| Helpers.HelpersLeaveGuardFlag | helpers.jsx:16-32 | Actions without an `events` toggle never change the flag the guard reads. |
| Helpers.CompletedFetch | helpers.jsx:23-39 | A completed fetch dispatches two `notifications` toggles and then `NOTIFICATIONS_FETCHED` with the page, the meta and `reset`, and nothing else. Every busy flag is back to its prior value. |
| Helpers.PageUrlQuery | helpers.jsx:12-28 | The page URL cut at `?` gives the endpoint and a query that parses back to exactly `limit` and `cursor`. |
| Helpers.PageQueryText | helpers.jsx:28 | The page query is the text `limit=<limit>&cursor=<cursor>`, with the cursor as a template literal prints it. |
| Helpers.PageQueryRoundTrip | helpers.jsx:28 | A page query whose cursor text holds no `&` parses back to exactly the `limit` and `cursor` entries. |
| Helpers.CheckNewNotifications | helpers.jsx:48-54 | Logs the toggle, then the unread-list request. |
| Helpers.CheckNewSettled | helpers.jsx:54-68 | The toggle always comes first. With a list, `NOTIFICATIONS_ACTIVE` follows, with `active` set to whether the list is non-empty. A missing result dispatches nothing more and resolves. A missing `data` dispatches nothing more and throws. |
| Helpers.CompletedCheckNew | helpers.jsx:48-68 | After a completed check, `active` holds exactly when the list is non-empty, and the busy flags are as before. |
| Helpers.SetReadNotifications | helpers.jsx:76-82 | Logs the toggle, then the mark-read request. |
| Helpers.SetReadSettled | helpers.jsx:82-92 | Logs the toggle, then `NOTIFICATIONS_ACTIVE(false)`. `active` is then false. |
| Helpers.CompletedSetRead | helpers.jsx:76-93 | After a completed mark-read, `active` is false and the busy flags are as before. |
| Helpers.TwoTogglesRestore | helpers.jsx:23-39 | Two toggles of `notifications` followed by a non-toggle action leave every busy flag as it was. |
| Helpers.DefaultStatePrototypes | helpers.jsx:100-104 | The popup is closed, `isNewLoaded` is set and no loader shows. |

## Left out

- `notifications.jsx` and `index.jsx` are not part of this model. They are container shells: lifecycle hooks, DOM refs, scroll and outside-click wiring, and interval polling.
- The reducers are not part of this model.
  - `TOGGLE_BUSY_SECTION` is assumed to negate the flag, with a missing flag read as false.
  - `NOTIFICATIONS_ACTIVE` and `NOTIFICATIONS_LOCK_POPUP` are assumed to set the field they carry.
  - `NOTIFICATIONS_FETCHED` is a function parameter of the store, so replace-versus-append and how the next cursor comes from `meta` are not stated.
  - `NOTIFICATIONS_FETCHED` is assumed to change the list and cursor only. That is why `Helpers.CompletedFetch` can state that `active` and `lockPopup` are unchanged.
- `parseCheckAccessToLink` is a function parameter. The constants `S_SPORTNECT` and `CHECK_ACCESS_TYPE_OTHER` are parameters too (`primary`, `otherType`). `REACT_APP_API_URL` is the parameter `apiUrl`.
- HTTP (`axios`), `swconfirm`, `window.open` and `history.push` are entries in the store's log. A response is a parameter of the method that runs when it arrives.
- Promise timing and interleaving of independent requests are not modelled. Each request is an issue step and a settle step, and the caller chooses their order.
- A failed page, unread or mark-read request is not modelled. It has no `catch`, so the `notifications` flag stays toggled once. The access check's failure is modelled, because its `finally` runs.
- LowerCase: only ASCII letters are folded. JavaScript's `toLowerCase` also folds other Unicode letters.
- JsString.Assign: it keeps insertion order for every key. JavaScript lists integer-like keys of an object first, whatever their insertion order.
- Token values are text. Non-string values and their `toString` renderings are not modelled.
- A cursor is `null`, `undefined`, an integer or a text token. Fractional numbers, `NaN` and other values are not modelled.
- `moment` date formatting, the i18n `t(...)` lookups, JSX markup and CSS classes are left out. A row keeps the raw `created_at` text.
- The primary-system `href` is computed while rendering. On that system `getRedirectLink` has no effect, so the model returns the path without logging anything.
