/**
 * The three request helpers of the notification feature and the containers'
 * default state.  Each helper toggles the `notifications` busy flag, sends its
 * request, and, when the response arrives, toggles the flag again and
 * dispatches its state transition.  A helper is therefore split into a method
 * that runs up to the request and a method that runs when the response is
 * supplied.
 */
module Helpers {
  import opened Wrappers
  import opened JsString
  import opened Store

  /** The default page size of `fetch`. */
  const DefaultLimit: int := 20

  /** The cursor `fetch` asks for: 0 on a reset, the stored cursor otherwise. */
  function FetchCursor(reset: bool, stored: Cursor): (r: Cursor)
    ensures r == Null ==> !reset && stored == Null
  {
    if reset then Num(0) else stored
  }

  /** The guard of `fetch`: no cursor left, or the `events` section busy. */
  predicate FetchRefused(st: AppState, reset: bool)
    ensures Busy(st, Events) ==> FetchRefused(st, reset)
    ensures FetchRefused(st, reset) ==> Busy(st, Events) || (!reset && st.list.cursor == Null)
  {
    FetchCursor(reset, st.list.cursor) == Null || Busy(st, Events)
  }

  /** Template-literal rendering of a cursor. */
  function CursorText(c: Cursor): string {
    match c
    case Null => "null"
    case Undefined => "undefined"
    case Num(n) => IntToString(n)
    case Token(s) => s
  }

  /** The request URL of each helper, below the API base URL. */
  function RequestUrl(apiUrl: string, req: Request): (r: string)
    ensures |r| > |apiUrl| && r[..|apiUrl|] == apiUrl
  {
    match req
    case ListPage(limit, c) =>   // api/notifications?limit=${limit}&cursor=${cursor}
      apiUrl + "api/notifications" + "?" + QueryString([("limit", IntToString(limit)), ("cursor", CursorText(c))])
    case ListUnread => apiUrl + "api/notifications?unread"
    case MarkAllRead => apiUrl + "api/read-notifications"
    case CheckAccess(_) => apiUrl + "api/check/access"
  }

  /** The body of a list response (`result.data`); `data` is its `data` field. */
  datatype ListBody = ListBody(data: Option<seq<Notification>>)

  /** `fetch(reset, limit)` up to its request.  `None` is the promise that
      resolves at once without touching the store. */
  method Fetch(store: Store, reset: bool, limit: int) returns (sent: Option<Request>)
    requires store.Valid()
    modifies store
    ensures store.Valid() && store.init == old(store.init)
    ensures FetchRefused(old(store.state), reset) ==>
      sent == None && store.log == old(store.log) && store.state == old(store.state)
    ensures !FetchRefused(old(store.state), reset) ==>
      sent == Some(ListPage(limit, FetchCursor(reset, old(store.state).list.cursor))) &&
      store.log == old(store.log) + [Dispatched(ToggleBusySection(Notifications)), Sent(sent.value)]
  {
    var st := store.state;
    var busy := Busy(st, Events);
    var cursor := if reset then Num(0) else st.list.cursor;
    if cursor == Null || busy {
      return None;
    }
    store.Dispatch(ToggleBusySection(Notifications));
    var req := ListPage(limit, cursor);
    store.Emit(Sent(req));
    sent := Some(req);
  }

  /** `fetch()` and `fetch(true)`, the calls the containers make: the page
      size is the default 20. */
  method FetchDefault(store: Store, reset: bool) returns (sent: Option<Request>)
    requires store.Valid()
    modifies store
    ensures store.Valid() && store.init == old(store.init)
    ensures sent.Some? ==> sent.value.ListPage? && sent.value.limit == 20
    ensures sent.None? <==> FetchRefused(old(store.state), reset)
    ensures FetchRefused(old(store.state), reset) ==>
      store.log == old(store.log) && store.state == old(store.state)
    ensures !FetchRefused(old(store.state), reset) ==>
      sent == Some(ListPage(DefaultLimit, FetchCursor(reset, old(store.state).list.cursor))) &&
      store.log == old(store.log) + [Dispatched(ToggleBusySection(Notifications)), Sent(sent.value)]
  {
    sent := Fetch(store, reset, DefaultLimit);
  }

  /** The `then` of `fetch`: the page `items` and `meta` have arrived. */
  method FetchSettled(store: Store, reset: bool, items: seq<Notification>, meta: Meta)
    requires store.Valid()
    modifies store
    ensures store.Valid() && store.init == old(store.init)
    ensures store.log == old(store.log) +
      [Dispatched(ToggleBusySection(Notifications)), Dispatched(NotificationsFetched(items, meta, reset))]
  {
    store.Dispatch(ToggleBusySection(Notifications));
    store.Dispatch(NotificationsFetched(items, meta, reset));
  }

  /** `checkNewNotifications()` up to its request. */
  method CheckNewNotifications(store: Store)
    requires store.Valid()
    modifies store
    ensures store.Valid() && store.init == old(store.init)
    ensures store.log == old(store.log) + [Dispatched(ToggleBusySection(Notifications)), Sent(ListUnread)]
  {
    store.Dispatch(ToggleBusySection(Notifications));
    store.Emit(Sent(ListUnread));
  }

  /** The `then` of `checkNewNotifications`.  `body` is `result.data` (`None`
      when missing); `resolved` is false when `body.data` is missing, where
      reading its `length` throws. */
  method CheckNewSettled(store: Store, body: Option<ListBody>) returns (resolved: bool)
    requires store.Valid()
    modifies store
    ensures store.Valid() && store.init == old(store.init)
    ensures resolved <==> body.None? || body.value.data.Some?
    ensures (body.None? || body.value.data.None?) ==>
      store.log == old(store.log) + [Dispatched(ToggleBusySection(Notifications))]
    ensures body.Some? && body.value.data.Some? ==>
      store.log == old(store.log) + [Dispatched(ToggleBusySection(Notifications)),
                                     Dispatched(NotificationsActive(|body.value.data.value| > 0))]
  {
    store.Dispatch(ToggleBusySection(Notifications));
    if body.Some? {
      if body.value.data.None? {
        return false;
      }
      store.Dispatch(NotificationsActive(|body.value.data.value| > 0));
    }
    resolved := true;
  }

  /** `setReadNotifications()` up to its request. */
  method SetReadNotifications(store: Store)
    requires store.Valid()
    modifies store
    ensures store.Valid() && store.init == old(store.init)
    ensures store.log == old(store.log) + [Dispatched(ToggleBusySection(Notifications)), Sent(MarkAllRead)]
  {
    store.Dispatch(ToggleBusySection(Notifications));
    store.Emit(Sent(MarkAllRead));
  }

  /** The `then` of `setReadNotifications`. */
  method SetReadSettled(store: Store)
    requires store.Valid()
    modifies store
    ensures store.Valid() && store.init == old(store.init)
    ensures store.log == old(store.log) +
      [Dispatched(ToggleBusySection(Notifications)), Dispatched(NotificationsActive(false))]
    ensures !store.state.active
  {
    store.Dispatch(ToggleBusySection(Notifications));
    store.Dispatch(NotificationsActive(false));
  }

  /** Local state of the page and popup containers. */
  datatype ContainerState = ContainerState(popupOpen: bool, isNewLoaded: bool, showLoader: bool)

  /** `defaultStatePrototypes()`: popup closed, nothing pending, no loader. */
  function DefaultStatePrototypes(): (r: ContainerState)
    ensures !r.popupOpen && r.isNewLoaded && !r.showLoader
  {
    ContainerState(false, true, false)
  }

  // ---------------------------------------------------------------------------
  // Properties of the guard and of complete request cycles
  // ---------------------------------------------------------------------------

  /** Without a reset, a `null` cursor refuses the fetch. */
  lemma NullCursorRefuses(st: AppState)
    requires st.list.cursor == Null
    ensures FetchRefused(st, false)
  {
  }

  /** A reset always asks from cursor 0, so only the `events` flag can refuse it. */
  lemma ResetRefusedOnlyWhenBusy(st: AppState)
    ensures FetchCursor(true, st.list.cursor) == Num(0)
    ensures FetchRefused(st, true) <==> Busy(st, Events)
  {
  }

  /** Without a reset, the fetch goes ahead exactly when a cursor remains and
      `events` is not busy. */
  lemma PlainFetchGuard(st: AppState)
    ensures !FetchRefused(st, false) <==> st.list.cursor != Null && !Busy(st, Events)
  {
  }

  /** The guard reads `busySections.events`, not the `notifications` flag that
      the helpers toggle: any value of that flag gives the same verdict. */
  lemma GuardIgnoresNotificationsFlag(st: AppState, reset: bool, b: bool)
    ensures FetchRefused(st.(busy := st.busy[Notifications := b]), reset) == FetchRefused(st, reset)
  {
    var st' := st.(busy := st.busy[Notifications := b]);
    assert Busy(st', Events) == Busy(st, Events);
  }

  /** Consequently a fetch in flight does not refuse a second one. */
  lemma InFlightFetchDoesNotBlock(st: AppState, reset: bool, f: FetchedReducer)
    requires !FetchRefused(st, reset)
    ensures var mid := Reduce(st, ToggleBusySection(Notifications), f);
      Busy(mid, Notifications) != Busy(st, Notifications) && !FetchRefused(mid, reset)
  {
    var mid := Reduce(st, ToggleBusySection(Notifications), f);
    assert mid.list == st.list;
  }

  /** No run of actions without an `events` toggle (all the helpers dispatch)
      changes the flag that the guard reads. */
  lemma HelpersLeaveGuardFlag(st: AppState, actions: seq<Action>, f: FetchedReducer)
    requires ToggleCount(actions, Events) == 0
    ensures Busy(Replay(st, actions, f), Events) == Busy(st, Events)
  {
    ReplayBusy(st, actions, Events, f);
  }

  /** Three dispatches in a row. */
  lemma Replay3(st: AppState, a: Action, b: Action, c: Action, f: FetchedReducer)
    ensures Replay(st, [a, b, c], f) == Reduce(Reduce(Reduce(st, a, f), b, f), c, f)
  {
    var s1, s2 := Reduce(st, a, f), Reduce(Reduce(st, a, f), b, f);
    assert [a, b, c][1..] == [b, c] && [b, c][1..] == [c] && [c][1..] == [];
    assert Replay(st, [a, b, c], f) == Replay(s1, [b, c], f);
    assert Replay(s1, [b, c], f) == Replay(s2, [c], f);
    assert Replay(s2, [c], f) == Replay(Reduce(s2, c, f), [], f);
  }

  /** The actions in the log of a helper's request cycle: its two halves
      together, with the request between them. */
  lemma CycleDispatches(req: Request, last: Action)
    ensures Dispatches([Dispatched(ToggleBusySection(Notifications)), Sent(req),
                        Dispatched(ToggleBusySection(Notifications)), Dispatched(last)])
         == [ToggleBusySection(Notifications), ToggleBusySection(Notifications), last]
  {
    var e0, e1, e2, e3 := Dispatched(ToggleBusySection(Notifications)), Sent(req),
                          Dispatched(ToggleBusySection(Notifications)), Dispatched(last);
    assert [e0, e1, e2, e3][1..] == [e1, e2, e3] && [e1, e2, e3][1..] == [e2, e3];
    assert [e2, e3][1..] == [e3] && [e3][1..] == [];
    assert Dispatches([e3]) == [last];
    assert Dispatches([e2, e3]) == [ToggleBusySection(Notifications), last];
    assert Dispatches([e1, e2, e3]) == Dispatches([e2, e3]);
  }

  /** Two toggles of `notifications` followed by any other action leave every
      busy flag as it was. */
  lemma TwoTogglesRestore(st: AppState, last: Action, f: FetchedReducer)
    requires !last.ToggleBusySection?
    ensures var after := Replay(st, [ToggleBusySection(Notifications), ToggleBusySection(Notifications), last], f);
      forall s :: Busy(after, s) == Busy(st, s)
  {
    Replay3(st, ToggleBusySection(Notifications), ToggleBusySection(Notifications), last, f);
  }

  /** A completed `fetch` dispatches two toggles of `notifications` and then
      `NOTIFICATIONS_FETCHED` with the page, the meta and the reset flag, and
      nothing else; afterwards every busy flag is back to its prior value and
      the list is the list reducer's result. */
  lemma CompletedFetch(st: AppState, req: Request, items: seq<Notification>,
                       meta: Meta, reset: bool, f: FetchedReducer)
    ensures var acts := Dispatches([Dispatched(ToggleBusySection(Notifications)), Sent(req),
                                    Dispatched(ToggleBusySection(Notifications)),
                                    Dispatched(NotificationsFetched(items, meta, reset))]);
      var after := Replay(st, acts, f);
      acts == [ToggleBusySection(Notifications), ToggleBusySection(Notifications),
               NotificationsFetched(items, meta, reset)] &&
      (forall s :: Busy(after, s) == Busy(st, s)) &&
      after.list == f(st.list, items, meta, reset) &&
      after.active == st.active && after.lockPopup == st.lockPopup
  {
    var last := NotificationsFetched(items, meta, reset);
    CycleDispatches(req, last);
    TwoTogglesRestore(st, last, f);
    Replay3(st, ToggleBusySection(Notifications), ToggleBusySection(Notifications), last, f);
  }

  /** A completed `checkNewNotifications` with a list sets `active` exactly
      when the list is non-empty, and leaves the busy flags as they were. */
  lemma CompletedCheckNew(st: AppState, items: seq<Notification>, f: FetchedReducer)
    ensures var after := Replay(st, Dispatches([Dispatched(ToggleBusySection(Notifications)), Sent(ListUnread),
                                                Dispatched(ToggleBusySection(Notifications)),
                                                Dispatched(NotificationsActive(|items| > 0))]), f);
      (after.active <==> |items| > 0) && forall s :: Busy(after, s) == Busy(st, s)
  {
    var last := NotificationsActive(|items| > 0);
    CycleDispatches(ListUnread, last);
    TwoTogglesRestore(st, last, f);
    Replay3(st, ToggleBusySection(Notifications), ToggleBusySection(Notifications), last, f);
  }

  /** A completed `setReadNotifications` ends with `active` false, with the
      busy flags as they were. */
  lemma CompletedSetRead(st: AppState, f: FetchedReducer)
    ensures var after := Replay(st, Dispatches([Dispatched(ToggleBusySection(Notifications)), Sent(MarkAllRead),
                                                Dispatched(ToggleBusySection(Notifications)),
                                                Dispatched(NotificationsActive(false))]), f);
      !after.active && forall s :: Busy(after, s) == Busy(st, s)
  {
    var last := NotificationsActive(false);
    CycleDispatches(MarkAllRead, last);
    TwoTogglesRestore(st, last, f);
    Replay3(st, ToggleBusySection(Notifications), ToggleBusySection(Notifications), last, f);
  }

  /** The page, unread-list, mark-read and access-check requests go to four
      different URLs. */
  lemma RequestUrlsDiffer(apiUrl: string, limit: int, c: Cursor, url: TextValue)
    ensures var page, unread, read, access :=
      RequestUrl(apiUrl, ListPage(limit, c)), RequestUrl(apiUrl, ListUnread),
      RequestUrl(apiUrl, MarkAllRead), RequestUrl(apiUrl, CheckAccess(url));
      page != unread && page != read && page != access &&
      unread != read && unread != access && read != access
  {
    var q := QueryString([("limit", IntToString(limit)), ("cursor", CursorText(c))]);
    PageQueryText(limit, c);
    var page := "api/notifications?" + q;
    var unread := "api/notifications?unread";
    var read := "api/read-notifications";
    var access := "api/check/access";
    assert RequestUrl(apiUrl, ListPage(limit, c)) == apiUrl + page;
    assert page[4] == 'n' && read[4] == 'r' && access[4] == 'c';
    assert page[18] == q[0] == 'l' && unread[4] == 'n' && unread[18] == 'u';
    PathsDiffer(apiUrl, page, unread, 18);
    PathsDiffer(apiUrl, page, read, 4);
    PathsDiffer(apiUrl, page, access, 4);
    PathsDiffer(apiUrl, unread, read, 4);
    PathsDiffer(apiUrl, unread, access, 4);
    PathsDiffer(apiUrl, read, access, 4);
  }

  /** Paths that differ at some position give different URLs below one base. */
  lemma PathsDiffer(apiUrl: string, p1: string, p2: string, k: nat)
    requires k < |p1| && k < |p2| && p1[k] != p2[k]
    ensures apiUrl + p1 != apiUrl + p2
  {
    assert (apiUrl + p1)[|apiUrl| + k] == p1[k];
    assert (apiUrl + p2)[|apiUrl| + k] == p2[k];
  }

  /** The page query is `limit=<limit>&cursor=<cursor>`. */
  lemma PageQueryText(limit: int, c: Cursor)
    ensures QueryString([("limit", IntToString(limit)), ("cursor", CursorText(c))]) ==
      "limit=" + IntToString(limit) + "&" + ("cursor=" + CursorText(c))
  {
    var entries := [("limit", IntToString(limit)), ("cursor", CursorText(c))];
    var x, y := "limit=" + IntToString(limit), "cursor=" + CursorText(c);
    assert "limit" + "=" == "limit=" && "cursor" + "=" == "cursor=";
    assert entries[1..] == [entries[1]] && entries[1..][1..] == [];
    assert EntryStrings(entries[1..]) == [y];
    assert EntryStrings(entries) == [x, y];
    assert [x, y][1..] == [y];
    assert Join([x, y], "&") == x + "&" + Join([y], "&") == x + "&" + y;
  }

  /** The default page size appears in the URL as `limit=20`. */
  lemma DefaultLimitText()
    ensures IntToString(DefaultLimit) == "20"
  {
    assert NatToString(2) == "2";
    assert NatToString(20) == NatToString(2) + [DigitChar(0)];
  }

  /** The page request URL carries `limit` and `cursor` as its query; read back,
      the query gives exactly those two entries. */
  lemma PageUrlQuery(apiUrl: string, limit: int, c: Cursor)
    requires '?' !in apiUrl && '?' !in CursorText(c) && '&' !in CursorText(c)
    ensures var parts := Split(RequestUrl(apiUrl, ListPage(limit, c)), "?");
      |parts| == 2 && parts[0] == apiUrl + "api/notifications" &&
      ParseQuery(parts[1]) == [("limit", IntToString(limit)), ("cursor", CursorText(c))]
  {
    var q := QueryString([("limit", IntToString(limit)), ("cursor", CursorText(c))]);
    assert '?' !in IntToString(limit);
    PageQueryText(limit, c);
    assert '?' !in q;
    var base := apiUrl + "api/notifications";
    assert RequestUrl(apiUrl, ListPage(limit, c)) == base + ['?'] + q;
    SplitOnce(base, '?', q);
    PageQueryRoundTrip(limit, c);
  }

  /** The page query reads back as its two entries. */
  lemma PageQueryRoundTrip(limit: int, c: Cursor)
    requires '&' !in CursorText(c)
    ensures var entries := [("limit", IntToString(limit)), ("cursor", CursorText(c))];
      ParseQuery(QueryString(entries)) == entries
  {
    var entries := [("limit", IntToString(limit)), ("cursor", CursorText(c))];
    assert '&' !in IntToString(limit);
    QueryRoundTrip(entries);
  }
}
