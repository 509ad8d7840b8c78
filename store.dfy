/**
 * The application's global store, as far as the notification code uses it:
 * the `busySections` flags of the `ui` slice, the `notifications` slice of
 * `app` (list, cursor, unread flag, popup lock) and the auth tokens.  The store
 * is a state value that `dispatch` replaces by the reducer's result; the model
 * also keeps one log of everything observable, in order: each dispatched action
 * and each effect on the outside world (an HTTP request, a confirmation dialog,
 * a new browser tab, a router navigation).
 */
module Store {
  import opened Wrappers

  /** Keys of `ui.busySections` that the notification code touches. */
  datatype Section = Events | Notifications | NotificationsCheckAccess

  /** The pagination cursor: `null` when there are no more pages, `undefined`
      before the first page, otherwise a number or a token. */
  datatype Cursor = Null | Undefined | Num(n: int) | Token(s: string)

  datatype Notification = Notification(
    id: int, image: string, message: string, createdAt: string, webLink: TextValue)

  /** Response metadata of a page (`data.meta`). */
  datatype Meta = Meta(next: Cursor)

  datatype NotificationList = NotificationList(items: seq<Notification>, cursor: Cursor)

  datatype AppState = AppState(
    busy: map<Section, bool>,
    list: NotificationList,
    active: bool,
    lockPopup: bool,
    tokens: seq<(string, string)>)

  datatype Action =
    | ToggleBusySection(section: Section)
    | NotificationsFetched(notifications: seq<Notification>, meta: Meta, reset: bool)
    | NotificationsActive(active: bool)
    | NotificationsLockPopup(lockPopup: bool)

  datatype Request =
    | ListPage(limit: int, cursor: Cursor)   // GET api/notifications?limit=..&cursor=..
    | ListUnread                             // GET api/notifications?unread
    | MarkAllRead                            // PUT api/read-notifications
    | CheckAccess(url: TextValue)           // POST api/check/access { url }

  datatype Event =
    | Dispatched(action: Action)
    | Sent(request: Request)
    | ConfirmShown(webLink: TextValue)
    | TabOpened(url: string)
    | Pushed(path: string)

  /** How the list reducer applies `NOTIFICATIONS_FETCHED`: replace or append
      the items and take the next cursor from the metadata.  Its code is not
      part of this model, so it is a parameter of the store. */
  type FetchedReducer = (NotificationList, seq<Notification>, Meta, bool) -> NotificationList

  /** A busy flag as JavaScript reads it: a missing key is falsy. */
  function Busy(st: AppState, s: Section): bool {
    s in st.busy && st.busy[s]
  }

  /** The reducers for the four actions.  `TOGGLE_BUSY_SECTION` negates the
      flag; `NOTIFICATIONS_ACTIVE` and `NOTIFICATIONS_LOCK_POPUP` set the field
      they carry. */
  function Reduce(st: AppState, a: Action, onFetched: FetchedReducer): (r: AppState)
    ensures a.ToggleBusySection? ==> Busy(r, a.section) == !Busy(st, a.section)
    ensures forall s :: a != ToggleBusySection(s) ==> Busy(r, s) == Busy(st, s)
    ensures r.tokens == st.tokens
  {
    match a
    case ToggleBusySection(s) => st.(busy := st.busy[s := !Busy(st, s)])
    case NotificationsFetched(items, meta, reset) => st.(list := onFetched(st.list, items, meta, reset))
    case NotificationsActive(b) => st.(active := b)
    case NotificationsLockPopup(b) => st.(lockPopup := b)
  }

  /** The actions of a log, in order. */
  function Dispatches(log: seq<Event>): (r: seq<Action>)
    ensures |r| <= |log|
  {
    if log == [] then []
    else (if log[0].Dispatched? then [log[0].action] else []) + Dispatches(log[1..])
  }

  /** The state reached by dispatching `actions` one after the other. */
  function Replay(st: AppState, actions: seq<Action>, onFetched: FetchedReducer): AppState
    decreases |actions|
  {
    if actions == [] then st else Replay(Reduce(st, actions[0], onFetched), actions[1..], onFetched)
  }

  /** How many of `actions` toggle section `s`. */
  function ToggleCount(actions: seq<Action>, s: Section): nat {
    if actions == [] then 0
    else (if actions[0] == ToggleBusySection(s) then 1 else 0) + ToggleCount(actions[1..], s)
  }

  lemma {:induction false} DispatchesAppend(a: seq<Event>, b: seq<Event>)
    ensures Dispatches(a + b) == Dispatches(a) + Dispatches(b)
  {
    if a == [] {
      assert a + b == b;
    } else {
      assert (a + b)[0] == a[0];
      assert (a + b)[1..] == a[1..] + b;
      DispatchesAppend(a[1..], b);
    }
  }

  lemma {:induction false} ReplayAppend(st: AppState, a: seq<Action>, b: seq<Action>, f: FetchedReducer)
    ensures Replay(st, a + b, f) == Replay(Replay(st, a, f), b, f)
    decreases |a|
  {
    if a == [] {
      assert a + b == b;
    } else {
      assert (a + b)[0] == a[0];
      assert (a + b)[1..] == a[1..] + b;
      ReplayAppend(Reduce(st, a[0], f), a[1..], b, f);
    }
  }

  lemma {:induction false} ToggleCountAppend(a: seq<Action>, b: seq<Action>, s: Section)
    ensures ToggleCount(a + b, s) == ToggleCount(a, s) + ToggleCount(b, s)
  {
    if a == [] {
      assert a + b == b;
    } else {
      assert (a + b)[0] == a[0];
      assert (a + b)[1..] == a[1..] + b;
      ToggleCountAppend(a[1..], b, s);
    }
  }

  /** A busy flag after a run of actions is its old value flipped once per
      toggle of that section; no other action touches it. */
  lemma {:induction false} ReplayBusy(st: AppState, actions: seq<Action>, s: Section, f: FetchedReducer)
    ensures Busy(Replay(st, actions, f), s) == (Busy(st, s) != (ToggleCount(actions, s) % 2 == 1))
    decreases |actions|
  {
    if actions != [] {
      ReplayBusy(Reduce(st, actions[0], f), actions[1..], s, f);
    }
  }

  /** The store of the running application. */
  class Store {
    var state: AppState
    var log: seq<Event>
    ghost var init: AppState
    const onFetched: FetchedReducer

    /** The state is always the initial state with every logged action applied. */
    ghost predicate Valid()
      reads this
    {
      state == Replay(init, Dispatches(log), onFetched)
    }

    constructor (initial: AppState, reducer: FetchedReducer)
      ensures Valid() && state == initial && log == [] && onFetched == reducer
    {
      state, log, init, onFetched := initial, [], initial, reducer;
    }

    /** `store.dispatch(a)` */
    method Dispatch(a: Action)
      requires Valid()
      modifies this
      ensures Valid() && init == old(init)
      ensures state == Reduce(old(state), a, onFetched)
      ensures log == old(log) + [Dispatched(a)]
    {
      DispatchesAppend(log, [Dispatched(a)]);
      assert Dispatches([Dispatched(a)]) == [a];
      ReplayAppend(init, Dispatches(log), [a], onFetched);
      assert Replay(state, [a], onFetched) == Reduce(state, a, onFetched);
      state, log := Reduce(state, a, onFetched), log + [Dispatched(a)];
    }

    /** An effect outside the store (request, dialog, tab, navigation). */
    method Emit(e: Event)
      requires Valid() && !e.Dispatched?
      modifies this
      ensures Valid() && init == old(init)
      ensures state == old(state)
      ensures log == old(log) + [e]
    {
      DispatchesAppend(log, [e]);
      assert Dispatches([e]) == [];
      assert Dispatches(log + [e]) == Dispatches(log);
      log := log + [e];
    }
  }
}
