/**
 * The notification list view: how a notification's `webLink` is resolved, the
 * cross-system redirect dialog, and what the list and its footer show.
 *
 * `system` is the deployment's `REACT_APP_SYSTEM` and `primary` the value of
 * the constant `S_SPORTNECT`; both are parameters.
 */
module Content {
  import opened Wrappers
  import opened JsString
  import opened Store

  // ---------------------------------------------------------------------------
  // The primary system: the link becomes an in-app path
  // ---------------------------------------------------------------------------

  /** `/${x}`.replace('//', '/'): prefix a slash, then collapse the first `//`. */
  function Rooted(x: string): (r: string)
    ensures |r| >= 1 && r[0] == '/'
  {
    ReplaceFirst("/" + x, "//", "/")
  }

  /** The path of a legacy absolute link: the text between the first and the
      second `//`, without its first `/`-separated segment (the host).  With no
      `//` at all the optional chain yields `undefined`. */
  function StripOrigin(link: string): (r: string)
    ensures !Contains(link, "//") ==> r == "undefined"
  {
    var parts := Split(link, "//");
    if |parts| < 2 then "undefined" else Join(Split(parts[1], "/")[1..], "/")
  }

  /** The link is a legacy absolute link: its lower-case form contains `http`. */
  predicate IsLegacyAbsolute(webLink: TextValue)
    ensures IsLegacyAbsolute(webLink) ==> webLink.Text? && |webLink.value| >= 4
  {
    webLink.Text? && Contains(LowerCase(webLink.value), "http")
  }

  /** The link points into the administration: its lower-case form contains `/admin/`. */
  predicate IsAdminLink(webLink: TextValue)
    ensures IsAdminLink(webLink) ==> webLink.Text? && |webLink.value| >= 7
  {
    webLink.Text? && Contains(LowerCase(webLink.value), "/admin/")
  }

  /** `getRedirectLink` on the primary system. */
  function PrimaryLink(webLink: TextValue): (r: string)
    ensures |r| >= 1 && r[0] == '/'
  {
    if IsLegacyAbsolute(webLink) then Rooted(StripOrigin(webLink.value)) else Rooted(Show(webLink))
  }

  /** Rooting is idempotent: a rooted path is rooted again to itself. */
  lemma RootedIdempotent(x: string)
    ensures Rooted(Rooted(x)) == Rooted(x)
  {
    var y := Rooted(x);
    var s := "/" + y;
    assert OccursAt(s, "//", 0) by { assert s[0..2] == ['/', y[0]]; }
    IndexOfIs(s, "//", 0);
    assert s[2..] == y[1..];
  }

  /** The result starts with a single slash exactly when the input does not
      itself start with `//`: only the first `//` is collapsed. */
  lemma RootedSingleSlash(x: string)
    ensures (|Rooted(x)| >= 2 && Rooted(x)[1] == '/') <==> StartsWith(x, "//")
  {
    var s := "/" + x;
    var r := Rooted(x);
    if |x| >= 1 && x[0] == '/' {
      assert OccursAt(s, "//", 0) by { assert s[0..2] == [s[0], s[1]] == "//"; }
      IndexOfIs(s, "//", 0);
      assert r == "/" + s[2..] && s[2..] == x[1..];
      if |x| >= 2 {
        assert r[1] == x[1];
        assert x[..2] == [x[0], x[1]];
      }
    } else {
      assert !StartsWith(x, "//") by {
        if |x| >= 2 { assert x[..2][0] == x[0]; }
      }
      match IndexOf(s, "//")
      case None =>
        assert r == s;
        if |r| >= 2 { assert r[1] == x[0]; }
      case Some(i) =>
        assert s[i..i + 2][0] == s[i];
        assert s[0..2][1] == s[1] == x[0];
        assert i >= 2;
        assert r == s[..i] + "/" + s[i + 2..];
        assert r[1] == s[..i][1] == x[0];
    }
  }

  /** A path that already starts with one slash is left as it is. */
  lemma RootedAbsorbsSlash(y: string)
    requires !StartsWith(y, "/")
    ensures Rooted("/" + y) == "/" + y
  {
    var s := "/" + ("/" + y);
    assert OccursAt(s, "//", 0) by { assert s[0..2] == "//"; }
    IndexOfIs(s, "//", 0);
    assert s[2..] == y;
  }

  /** Without `//` after the added slash, rooting only adds the slash. */
  lemma RootedPlain(x: string)
    requires !Contains("/" + x, "//")
    ensures Rooted(x) == "/" + x
  {
  }

  /** A relative link `y` and `/y` resolve to the same path `/y` (for a link
      without `http` and without `//`). */
  lemma RelativeLinks(y: string)
    requires !StartsWith(y, "/") && !Contains("/" + y, "//")
    requires !Contains(LowerCase(y), "http")
    ensures PrimaryLink(Text(y)) == "/" + y
    ensures PrimaryLink(Text("/" + y)) == "/" + y
  {
    LowerCaseAppend("/", y);
    assert LowerCase("/") == "/";
    ContainsAfterChar('/', LowerCase(y), "http");
    RootedAbsorbsSlash(y);
  }

  /** Splitting at the `//` after a slash-free scheme, when no other `//` follows. */
  lemma SplitAfterScheme(scheme: string, rest: string)
    requires '/' !in scheme && !Contains(rest, "//")
    ensures Split(scheme + "//" + rest, "//") == [scheme, rest]
  {
    var link := scheme + "//" + rest;
    IndexOfAfter(scheme, "//", rest);
    assert link[..|scheme|] == scheme;
    assert link[|scheme| + 2..] == rest;
    assert Split(rest, "//") == [rest];
  }

  /** Splitting at the `/` after a slash-free host. */
  lemma SplitAfterHost(host: string, path: string)
    requires '/' !in host
    ensures Split(host + "/" + path, "/") == [host] + Split(path, "/")
  {
    var rest := host + "/" + path;
    IndexOfAfter(host, "/", path);
    assert rest[..|host|] == host;
    assert rest[|host| + 1..] == path;
  }

  /** No `//` in `host/path` means none in `/path`. */
  lemma NoDoubleSlashInPath(host: string, path: string)
    requires !Contains(host + "/" + path, "//")
    ensures !Contains("/" + path, "//")
  {
    assert host + ("/" + path) == host + "/" + path;
    forall j: nat | OccursAt("/" + path, "//", j)
      ensures OccursAt(host + "/" + path, "//", |host| + j)
    {
      OccursInSuffix(host, "/" + path, "//", j);
    }
    ContainsIff("/" + path, "//");
    ContainsIff(host + "/" + path, "//");
  }

  /** A legacy absolute link `scheme//host/path` resolves to `/path`, provided
      scheme and host hold no slash and nothing after the first `//` holds
      another `//`. */
  lemma AbsoluteLink(scheme: string, host: string, path: string)
    requires '/' !in scheme && '/' !in host
    requires !Contains(host + "/" + path, "//")
    requires Contains(LowerCase(scheme + "//" + host + "/" + path), "http")
    ensures PrimaryLink(Text(scheme + "//" + host + "/" + path)) == "/" + path
  {
    StripAbsolute(scheme, host, path);
    NoDoubleSlashInPath(host, path);
    RootedPlain(path);
  }

  /** The path taken from `scheme//host/path` under the conditions of `AbsoluteLink`. */
  lemma StripAbsolute(scheme: string, host: string, path: string)
    requires '/' !in scheme && '/' !in host
    requires !Contains(host + "/" + path, "//")
    ensures StripOrigin(scheme + "//" + host + "/" + path) == path
  {
    var rest := host + "/" + path;
    var link := scheme + "//" + rest;
    assert link == scheme + "//" + host + "/" + path;
    SplitAfterScheme(scheme, rest);
    SplitAfterHost(host, path);
    assert Split(rest, "/")[1..] == Split(path, "/");
    JoinSplit(path, "/");
  }

  /** A legacy absolute link `scheme//host` without a path resolves to `/`. */
  lemma AbsoluteLinkHostOnly(scheme: string, host: string)
    requires '/' !in scheme && '/' !in host
    requires Contains(LowerCase(scheme + "//" + host), "http")
    ensures PrimaryLink(Text(scheme + "//" + host)) == "/"
  {
    var link := scheme + "//" + host;
    IndexOfAfter(scheme, "//", host);
    assert link[..|scheme|] == scheme && link[|scheme| + 2..] == host;
    IndexOfAbsent(host, "//");
    assert Split(link, "//") == [scheme, host];
    IndexOfAbsent(host, "/");
    assert Split(host, "/") == [host];
    assert StripOrigin(link) == "";
    assert IndexOf("/", "//") == None;
  }

  /** A slash-free text is rooted by prefixing a slash. */
  lemma SlashFreeRooted(x: string)
    requires '/' !in x
    ensures Rooted(x) == "/" + x
  {
    var s := "/" + x;
    forall j: nat | j + 2 <= |s| ensures !OccursAt(s, "//", j) {
      assert s[j..j + 2][1] == s[j + 1] == x[j];
    }
  }

  /** The text `undefined` holds no `//`. */
  lemma UndefinedRooted()
    ensures Rooted("undefined") == "/undefined"
  {
    var u := "undefined";
    assert '/' !in u;
    SlashFreeRooted(u);
  }

  /** A `null` link: on the primary system it resolves to the text `/null`;
      elsewhere it is no admin link, so it is sent to the access check as
      `url: null`. */
  lemma NullLink(system: string, primary: string)
    ensures PrimaryLink(NullValue) == "/null"
    ensures system != primary ==>
      Resolve(system, primary, NullValue) == AccessCheckSent &&
      ResolveEvents(AccessCheckSent, NullValue) ==
        [Dispatched(ToggleBusySection(NotificationsCheckAccess)), Sent(CheckAccess(NullValue))]
  {
    var n := "null";
    assert '/' !in n;
    SlashFreeRooted(n);
  }

  /** A link with `http` but without any `//`, and a missing link, both
      resolve to the text `/undefined`. */
  lemma UndefinedPaths(link: string)
    requires Contains(LowerCase(link), "http") && !Contains(link, "//")
    ensures PrimaryLink(Text(link)) == "/undefined"
    ensures PrimaryLink(Missing) == "/undefined"
  {
    assert Split(link, "//") == [link];
    UndefinedRooted();
  }

  /** Any link that starts with `http:` or `https:` is a legacy absolute link. */
  lemma WebSchemeIsLegacy(scheme: string, tail: string)
    requires scheme == "http:" || scheme == "https:"
    ensures IsLegacyAbsolute(Text(scheme + tail))
  {
    var l := scheme + tail;
    var low := LowerCase(l);
    assert l[0] == 'h' && l[1] == 't' && l[2] == 't' && l[3] == 'p';
    assert low[0] == 'h' && low[1] == 't' && low[2] == 't' && low[3] == 'p';
    assert OccursAt(low, "http", 0) by { assert low[0..4] == "http"; }
    IndexOfIs(low, "http", 0);
  }

  /** `http(s)://host/path` resolves to `/path`; for instance
      `https://host/a/b` gives `/a/b`. */
  lemma WebLinkWithPath(scheme: string, host: string, path: string)
    requires scheme == "http:" || scheme == "https:"
    requires '/' !in host && !Contains(host + "/" + path, "//")
    ensures PrimaryLink(Text(scheme + "//" + host + "/" + path)) == "/" + path
  {
    var link := scheme + "//" + host + "/" + path;
    assert link == scheme + ("//" + host + "/" + path);
    WebSchemeIsLegacy(scheme, "//" + host + "/" + path);
    AbsoluteLink(scheme, host, path);
  }

  /** `http(s)://host` resolves to `/`. */
  lemma WebLinkHostOnly(scheme: string, host: string)
    requires scheme == "http:" || scheme == "https:"
    requires '/' !in host
    ensures PrimaryLink(Text(scheme + "//" + host)) == "/"
  {
    assert scheme + "//" + host == scheme + ("//" + host);
    WebSchemeIsLegacy(scheme, "//" + host);
    AbsoluteLinkHostOnly(scheme, host);
  }

  /** The first `//` after a text that holds none and does not end in `/`
      ends the first piece of the split. */
  lemma FirstDoubleSlash(a: string, q: string)
    requires !Contains(a, "//") && |a| > 0 && a[|a| - 1] != '/'
    ensures Split(a + "//" + q, "//")[0] == a
  {
    var t := a + "//" + q;
    ContainsIff(a, "//");
    forall j | 0 <= j < |a| ensures !OccursAt(t, "//", j) {
      if j + 1 < |a| {
        assert !OccursAt(a, "//", j);
        assert t[j..j + 2] == a[j..j + 2];
      } else {
        assert t[j..j + 2][0] == t[j] == a[|a| - 1] != '/';
        assert "//"[0] == '/';
      }
    }
    assert t[|a|..|a| + 2] == "//";
    IndexOfIs(t, "//", |a|);
    assert t[..|a|] == a;
  }

  /** The path taken from `scheme//host/p//q` is `p`. */
  lemma StripTruncated(scheme: string, host: string, p: string, q: string)
    requires '/' !in scheme && '/' !in host && !Contains(host + "/" + p, "//")
    requires |p| > 0 && p[|p| - 1] != '/'
    ensures StripOrigin(scheme + "//" + host + "/" + p + "//" + q) == p
  {
    var hp := host + "/" + p;
    var rest := hp + "//" + q;
    var link := scheme + "//" + rest;
    assert link == scheme + "//" + host + "/" + p + "//" + q;
    IndexOfAfter(scheme, "//", rest);
    assert link[..|scheme|] == scheme && link[|scheme| + 2..] == rest;
    assert Split(link, "//") == [scheme] + Split(rest, "//");
    assert hp[|hp| - 1] == p[|p| - 1];
    FirstDoubleSlash(hp, q);
    assert Split(link, "//")[1] == hp;
    SplitAfterHost(host, p);
    assert Split(hp, "/")[1..] == Split(p, "/");
    JoinSplit(p, "/");
  }

  /** Only the piece between the first and the second `//` is kept, so a
      second `//` after the host cuts the path short: `http(s)://host/p//q`
      resolves to `/p`.  For instance `https://host/a//b` gives `/a`. */
  lemma WebLinkTruncated(scheme: string, host: string, p: string, q: string)
    requires scheme == "http:" || scheme == "https:"
    requires '/' !in host && !Contains(host + "/" + p, "//")
    requires |p| > 0 && p[|p| - 1] != '/'
    ensures PrimaryLink(Text(scheme + "//" + host + "/" + p + "//" + q)) == "/" + p
  {
    var link := scheme + "//" + host + "/" + p + "//" + q;
    assert link == scheme + ("//" + host + "/" + p + "//" + q);
    WebSchemeIsLegacy(scheme, "//" + host + "/" + p + "//" + q);
    assert '/' !in scheme;
    StripTruncated(scheme, host, p, q);
    NoDoubleSlashInPath(host, p);
    RootedPlain(p);
  }

  /** The worked examples `a/b` and `/a/b`, which both give `/a/b`. */
  lemma ExampleRelativeLinks()
    ensures PrimaryLink(Text("a/b")) == "/a/b"
    ensures PrimaryLink(Text("/a/b")) == "/a/b"
  {
    assert LowerCase("a/b") == "a/b";
    IndexOfAbsent("a/b", "http");
    assert "/" + "a/b" == "/a/b";
    NoDoubleSlash("/a/b");
    RelativeLinks("a/b");
  }

  /** A protocol-relative link keeps its two leading slashes. */
  lemma DoubleSlashLinkKept()
    ensures PrimaryLink(Text("//a")) == "//a"
  {
    assert LowerCase("//a") == "//a";
    IndexOfAbsent("//a", "http");
    var s := "/" + "//a";
    assert OccursAt(s, "//", 0);
    IndexOfIs(s, "//", 0);
  }

  /** An occurrence of a slash-free word in `a/b` is an occurrence in `a//b`:
      the word lies wholly before the slash or wholly after it. */
  lemma WordAcrossSlash(a: string, b: string, w: string, j: nat)
    requires '/' !in w
    requires OccursAt(a + "/" + b, w, j)
    ensures OccursAt(a + "//" + b, w, if j + |w| <= |a| then j else j + 1)
  {
    var t, u := a + "/" + b, a + "//" + b;
    forall k | j <= k < j + |w| ensures t[k] != '/' {
      assert t[k] == t[j..j + |w|][k - j] == w[k - j];
    }
    assert t[|a|] == '/';
    assert j + |w| <= |a| || |a| < j;
    if j + |w| <= |a| {
      assert t[j..j + |w|] == a[j..j + |w|] == u[j..j + |w|];
    } else {
      assert t[j..j + |w|] == b[j - |a| - 1..j - |a| - 1 + |w|] == u[j + 1..j + 1 + |w|];
    }
  }

  /** The same through the lower-case form: with `r` being `s` with the slash at
      `s[i + 1]` removed, an occurrence in the lower-case `r` is one in the
      lower-case `s`. */
  lemma WordSurvivesCollapse(s: string, r: string, w: string, i: nat, j: nat)
    requires '/' !in w
    requires i + 2 <= |s| && s[i] == '/' && s[i + 1] == '/'
    requires r == s[..i] + "/" + s[i + 2..]
    requires OccursAt(LowerCase(r), w, j)
    ensures OccursAt(LowerCase(s), w, if j + |w| <= i then j else j + 1)
  {
    var a, b := s[..i], s[i + 2..];
    assert s == a + "//" + b;
    LowerCaseAppend(a, "/");
    LowerCaseAppend(a + "/", b);
    LowerCaseAppend(a, "//");
    LowerCaseAppend(a + "//", b);
    assert LowerCase("/") == "/" && LowerCase("//") == "//";
    var la, lb := LowerCase(a), LowerCase(b);
    assert LowerCase(r) == la + "/" + lb;
    assert LowerCase(s) == la + "//" + lb;
    WordAcrossSlash(la, lb, w, j);
  }

  /** Collapsing a `//` cannot create a word that holds no slash. */
  lemma NoWordAfterRooting(x: string, w: string)
    requires |w| > 0 && '/' !in w
    requires !Contains(LowerCase(x), w)
    ensures !Contains(LowerCase(Rooted(x)), w)
  {
    var s, r := "/" + x, Rooted(x);
    LowerCaseAppend("/", x);
    assert LowerCase("/") == "/";
    assert w[0] != '/';
    ContainsAfterChar('/', LowerCase(x), w);
    ContainsIff(LowerCase(s), w);
    ContainsIff(LowerCase(r), w);
    match IndexOf(s, "//")
    case None =>
    case Some(i) =>
      assert OccursAt(s, "//", i);
      assert s[i..i + 2][0] == s[i] && s[i..i + 2][1] == s[i + 1];
      assert r == s[..i] + "/" + s[i + 2..];
      forall j: nat | OccursAt(LowerCase(r), w, j)
        ensures OccursAt(LowerCase(s), w, if j + |w| <= i then j else j + 1)
      {
        WordSurvivesCollapse(s, r, w, i, j);
      }
  }

  /** On a link without `http` the whole primary-system rewrite is idempotent:
      resolving its result again gives the same path. */
  lemma PrimaryLinkIdempotent(x: string)
    requires !IsLegacyAbsolute(Text(x))
    ensures PrimaryLink(Text(PrimaryLink(Text(x)))) == PrimaryLink(Text(x))
  {
    var http := "http";
    assert '/' !in http;
    NoWordAfterRooting(x, http);
    RootedIdempotent(x);
  }

  // ---------------------------------------------------------------------------
  // The redirect dialog
  // ---------------------------------------------------------------------------

  /** The query parameter that carries the link back. */
  const CallbackKey: string := "callback"

  /** The parameters of the redirect: the auth tokens with `callback` set to
      the link. */
  function RedirectParams(webLink: TextValue, tokens: seq<(string, string)>): (r: seq<(string, string)>)
    ensures Lookup(r, CallbackKey) == Some(Show(webLink))
    ensures forall k :: k != CallbackKey ==> Lookup(r, k) == Lookup(tokens, k)
  {
    Assign(tokens, CallbackKey, Show(webLink))
  }

  /** The URL opened on confirmation: the link, `?`, then the parameters as
      `key=val` joined by `&`, nothing encoded. */
  function RedirectUrl(webLink: TextValue, tokens: seq<(string, string)>): (r: string)
    ensures StartsWith(r, Show(webLink) + "?")
  {
    var r := Show(webLink) + "?" + QueryString(RedirectParams(webLink, tokens));
    assert r[..|Show(webLink)| + 1] == Show(webLink) + "?";
    r
  }

  /** Keys and values that survive the unencoded query: no separator inside. */
  predicate PlainTokens(tokens: seq<(string, string)>) {
    forall e :: e in tokens ==>
      '&' !in e.0 && '=' !in e.0 && '?' !in e.0 && '&' !in e.1 && '?' !in e.1
  }

  /** Read back, the redirect URL is the link followed by the tokens with
      `callback` set to the link: every token keeps its value, and `callback`
      holds the link, in the token's place if there was one, else last. */
  lemma RedirectReadBack(link: string, tokens: seq<(string, string)>)
    requires '?' !in link && '&' !in link
    requires PlainTokens(tokens)
    ensures var parts := Split(RedirectUrl(Text(link), tokens), "?");
      |parts| == 2 && parts[0] == link &&
      var query := ParseQuery(parts[1]);
      query == Assign(tokens, CallbackKey, link) &&
      Lookup(query, CallbackKey) == Some(link) &&
      (forall k :: k != CallbackKey ==> Lookup(query, k) == Lookup(tokens, k)) &&
      Keys(query) == if CallbackKey in Keys(tokens) then Keys(tokens) else Keys(tokens) + [CallbackKey]
  {
    var key := CallbackKey;
    assert '&' !in key && '=' !in key && '?' !in key;
    var entries := Assign(tokens, key, link);
    assert entries != [];
    forall i | 0 <= i < |entries|
      ensures '&' !in entries[i].0 && '=' !in entries[i].0 && '&' !in entries[i].1
      ensures '?' !in entries[i].0 && '?' !in entries[i].1
    {
      assert entries[i] in entries;
    }
    QueryStringAvoids(entries, '?');
    SplitOnce(link, '?', QueryString(entries));
    QueryRoundTrip(entries);
  }

  /** A one-parameter query whose value holds an `&` reads back as two. */
  lemma AmpersandSplitsValue(key: string, a: string, b: string)
    requires '&' !in key && '=' !in key && '?' !in key
    requires '&' !in a && '?' !in a && '&' !in b && '?' !in b && '=' !in b
    ensures var link := a + "&" + b;
      var parts := Split(link + "?" + QueryString([(key, link)]), "?");
      |parts| == 2 && ParseQuery(parts[1]) == [(key, a), (b, "")]
  {
    var link := a + "&" + b;
    var x := key + "=" + a;
    assert EntryStrings([(key, link)]) == [key + "=" + link];
    var q := QueryString([(key, link)]);
    assert q == x + "&" + b;
    assert '?' !in q;
    SplitOnce(link, '?', q);
    assert Join([x, b], "&") == q;
    assert '&' !in x;
    SplitJoin([x, b], '&');
    ParseEntryOf(key, a);
    IndexOfAbsent(b, "=");
    assert ParseEntries([x, b]) == [(key, a), (b, "")];
  }

  /** Nothing is encoded: an `&` inside the link splits the `callback`
      parameter, so the query read back holds the link only up to the `&`,
      followed by an extra parameter. */
  lemma UnencodedAmpersand(a: string, b: string)
    requires '&' !in a && '?' !in a && '&' !in b && '?' !in b && '=' !in b
    ensures var parts := Split(RedirectUrl(Text(a + "&" + b), []), "?");
      |parts| == 2 && ParseQuery(parts[1]) == [(CallbackKey, a), (b, "")]
  {
    var key := CallbackKey;
    assert '&' !in key && '=' !in key && '?' !in key;
    assert RedirectParams(Text(a + "&" + b), []) == [(key, a + "&" + b)];
    AmpersandSplitsValue(key, a, b);
  }

  /** `callPopupToSportnect(webLink)` up to the dialog: the popup is locked,
      then the confirmation dialog is shown. */
  method CallPopupToSportnect(store: Store, webLink: TextValue)
    requires store.Valid()
    modifies store
    ensures store.Valid() && store.init == old(store.init)
    ensures store.log == old(store.log) + [Dispatched(NotificationsLockPopup(true)), ConfirmShown(webLink)]
    ensures store.state == old(store.state).(lockPopup := true)
  {
    store.Dispatch(NotificationsLockPopup(true));
    store.Emit(ConfirmShown(webLink));
  }

  /** The dialog's `onConfirm`: the redirect URL, built from the tokens in the
      store at that moment, opens in a new tab.  Nothing is dispatched, so the
      popup stays locked. */
  method ConfirmRedirect(store: Store, webLink: TextValue) returns (url: string)
    requires store.Valid()
    modifies store
    ensures store.Valid() && store.init == old(store.init)
    ensures url == RedirectUrl(webLink, old(store.state.tokens))
    ensures store.log == old(store.log) + [TabOpened(url)]
    ensures store.state == old(store.state)
  {
    var params := Assign(store.state.tokens, CallbackKey, Show(webLink));
    url := Show(webLink) + "?" + QueryString(params);
    store.Emit(TabOpened(url));
  }

  /** The dialog's `onCancel`: the popup is unlocked. */
  method CancelRedirect(store: Store)
    requires store.Valid()
    modifies store
    ensures store.Valid() && store.init == old(store.init)
    ensures store.log == old(store.log) + [Dispatched(NotificationsLockPopup(false))]
    ensures store.state == old(store.state).(lockPopup := false)
  {
    store.Dispatch(NotificationsLockPopup(false));
  }

  /** The popup lock over a whole dialog: set on opening, still set after a
      confirmation, released only by a cancellation; no busy flag changes. */
  lemma DialogLock(st: AppState, webLink: TextValue, url: string, f: FetchedReducer)
    ensures var shown := [Dispatched(NotificationsLockPopup(true)), ConfirmShown(webLink)];
      var confirmed := Replay(st, Dispatches(shown + [TabOpened(url)]), f);
      var cancelled := Replay(st, Dispatches(shown + [Dispatched(NotificationsLockPopup(false))]), f);
      confirmed.lockPopup && !cancelled.lockPopup &&
      (forall s :: Busy(confirmed, s) == Busy(st, s) && Busy(cancelled, s) == Busy(st, s)) &&
      confirmed.list == st.list && cancelled.list == st.list
  {
    var shown := [Dispatched(NotificationsLockPopup(true)), ConfirmShown(webLink)];
    var lock, unlock := NotificationsLockPopup(true), NotificationsLockPopup(false);
    DispatchesAppend(shown, [TabOpened(url)]);
    DispatchesAppend(shown, [Dispatched(unlock)]);
    assert shown[1..] == [ConfirmShown(webLink)] && [ConfirmShown(webLink)][1..] == [];
    assert Dispatches([ConfirmShown(webLink)]) == [];
    assert Dispatches(shown) == [lock];
    assert Dispatches([TabOpened(url)]) == [];
    assert Dispatches([Dispatched(unlock)]) == [unlock];
    ReplayAppend(st, [lock], [unlock], f);
    assert Replay(st, [lock], f) == Reduce(st, lock, f);
    assert Replay(Reduce(st, lock, f), [unlock], f) == Reduce(Reduce(st, lock, f), unlock, f);
  }

  // ---------------------------------------------------------------------------
  // Resolving a notification's link
  // ---------------------------------------------------------------------------

  /** What `getRedirectLink` did: returned an in-app path (primary system),
      opened the redirect dialog, or sent an access check. */
  datatype Resolution = Href(path: string) | DialogOpened | AccessCheckSent

  /** The decision of `getRedirectLink` for a link on a system. */
  function Resolve(system: string, primary: string, webLink: TextValue): (r: Resolution)
    ensures r.Href? <==> system == primary
    ensures r.Href? ==> r.path == PrimaryLink(webLink)
    ensures r == DialogOpened <==> system != primary && IsAdminLink(webLink)
  {
    if system == primary then Href(PrimaryLink(webLink))
    else if IsAdminLink(webLink) then DialogOpened
    else AccessCheckSent
  }

  /** The effects that go with a resolution, in order. */
  function ResolveEvents(r: Resolution, webLink: TextValue): seq<Event> {
    match r
    case Href(_) => []
    case DialogOpened => [Dispatched(NotificationsLockPopup(true)), ConfirmShown(webLink)]
    case AccessCheckSent => [Dispatched(ToggleBusySection(NotificationsCheckAccess)), Sent(CheckAccess(webLink))]
  }

  /** `getRedirectLink(notification)` up to any request it sends. */
  method GetRedirectLink(store: Store, system: string, primary: string, notification: Notification)
    returns (res: Resolution)
    requires store.Valid()
    modifies store
    ensures store.Valid() && store.init == old(store.init)
    ensures res == Resolve(system, primary, notification.webLink)
    ensures store.log == old(store.log) + ResolveEvents(res, notification.webLink)
  {
    var webLink := notification.webLink;
    if system != primary {
      if webLink.Text? && Contains(LowerCase(webLink.value), "/admin/") {
        CallPopupToSportnect(store, webLink);
        return DialogOpened;
      }
      store.Dispatch(ToggleBusySection(NotificationsCheckAccess));
      store.Emit(Sent(CheckAccess(webLink)));
      return AccessCheckSent;
    }
    if webLink.Text? && Contains(LowerCase(webLink.value), "http") {
      return Href(Rooted(StripOrigin(webLink.value)));
    }
    return Href(Rooted(Show(webLink)));
  }

  /** An admin link only opens the dialog: no request is sent and the
      `notificationsCheckAccess` flag is not toggled. */
  lemma AdminLinkSkipsAccessCheck(system: string, primary: string, link: string)
    requires system != primary && IsAdminLink(Text(link))
    ensures var events := ResolveEvents(Resolve(system, primary, Text(link)), Text(link));
      (forall e :: e in events ==> !e.Sent?) &&
      ToggleCount(Dispatches(events), NotificationsCheckAccess) == 0
  {
    var events := ResolveEvents(Resolve(system, primary, Text(link)), Text(link));
    assert events[1..] == [ConfirmShown(Text(link))] && events[1..][1..] == [];
    assert Dispatches(events) == [NotificationsLockPopup(true)];
    assert [NotificationsLockPopup(true)][1..] == [];
  }

  /** The checked link's access, as `data.data` of the response: its `type`. */
  datatype AccessData = AccessData(kind: Option<string>, fields: seq<(string, string)>)

  /** How the access check settled: the request failed, or it answered with
      `data.data` (`None` when missing). */
  datatype AccessOutcome = Failed | Answered(response: Option<AccessData>)

  /** The answer sends the user to the other system: its type is `otherType`
      (the constant `CHECK_ACCESS_TYPE_OTHER`). */
  predicate IsOtherSystem(response: Option<AccessData>, otherType: string) {
    response.Some? && response.value.kind == Some(otherType)
  }

  /** The effects of the settled access check: the `then` branch, when the
      request succeeded, followed by the `finally` toggle.  `parse` is
      `parseCheckAccessToLink`. */
  function SettleEvents(webLink: TextValue, outcome: AccessOutcome, otherType: string,
                        parse: Option<AccessData> -> string): (r: seq<Event>)
    ensures |r| >= 1 && r[|r| - 1] == Dispatched(ToggleBusySection(NotificationsCheckAccess))
  {
    var finally := [Dispatched(ToggleBusySection(NotificationsCheckAccess))];
    match outcome
    case Failed => finally
    case Answered(response) =>
      if IsOtherSystem(response, otherType)
      then [Dispatched(NotificationsLockPopup(true)), ConfirmShown(webLink)] + finally
      else [Pushed(parse(response))] + finally
  }

  /** The access check's `then` and `finally`, once its outcome is known. */
  method AccessCheckSettled(store: Store, webLink: TextValue, outcome: AccessOutcome,
                            otherType: string, parse: Option<AccessData> -> string)
    requires store.Valid()
    modifies store
    ensures store.Valid() && store.init == old(store.init)
    ensures store.log == old(store.log) + SettleEvents(webLink, outcome, otherType, parse)
  {
    if outcome.Answered? {
      var response := outcome.response;
      if response.Some? && response.value.kind == Some(otherType) {
        CallPopupToSportnect(store, webLink);
      } else {
        store.Emit(Pushed(parse(response)));
      }
    }
    store.Dispatch(ToggleBusySection(NotificationsCheckAccess));
  }

  /** An answer of the other type opens the dialog and navigates nowhere; any
      other answer navigates to the parsed path and opens no dialog; a failure
      does neither. */
  lemma SettleChoice(webLink: TextValue, outcome: AccessOutcome, otherType: string,
                     parse: Option<AccessData> -> string)
    ensures var events := SettleEvents(webLink, outcome, otherType, parse);
      (ConfirmShown(webLink) in events <==> outcome.Answered? && IsOtherSystem(outcome.response, otherType)) &&
      (outcome.Answered? && !IsOtherSystem(outcome.response, otherType) ==> Pushed(parse(outcome.response)) in events) &&
      (forall e :: e in events && e.Pushed? ==> outcome.Answered? && !IsOtherSystem(outcome.response, otherType))
  {
  }

  /** The actions among the settled effects: the dialog's lock, if any, then
      the `finally` toggle. */
  lemma SettleDispatches(webLink: TextValue, outcome: AccessOutcome, otherType: string,
                         parse: Option<AccessData> -> string)
    ensures Dispatches(SettleEvents(webLink, outcome, otherType, parse)) ==
      (if outcome.Answered? && IsOtherSystem(outcome.response, otherType)
       then [NotificationsLockPopup(true)] else []) + [ToggleBusySection(NotificationsCheckAccess)]
  {
    var toggle := ToggleBusySection(NotificationsCheckAccess);
    var settled := SettleEvents(webLink, outcome, otherType, parse);
    assert Dispatches([Dispatched(toggle)]) == [toggle];
    if outcome.Answered? && IsOtherSystem(outcome.response, otherType) {
      assert settled[1..] == [ConfirmShown(webLink), Dispatched(toggle)];
      assert settled[1..][1..] == [Dispatched(toggle)];
      assert Dispatches(settled[1..]) == [toggle];
    } else if outcome.Answered? {
      assert settled[1..] == [Dispatched(toggle)];
    }
  }

  /** A toggle of `section`, at most one popup lock, and the same toggle again
      leave every busy flag, the list and `active` as they were. */
  lemma ToggleAround(st: AppState, section: Section, middle: seq<Action>, f: FetchedReducer)
    requires middle == [] || middle == [NotificationsLockPopup(true)]
    ensures var acts := [ToggleBusySection(section)] + middle + [ToggleBusySection(section)];
      var after := Replay(st, acts, f);
      ToggleCount(acts, section) == 2 &&
      (forall s :: Busy(after, s) == Busy(st, s)) &&
      after.lockPopup == (st.lockPopup || middle != []) &&
      after.list == st.list && after.active == st.active
  {
    var toggle := ToggleBusySection(section);
    var acts := [toggle] + middle + [toggle];
    ReplayAppend(st, [toggle] + middle, [toggle], f);
    ReplayAppend(st, [toggle], middle, f);
    var s1 := Reduce(st, toggle, f);
    assert Replay(st, [toggle], f) == s1;
    var s2 := Replay(s1, middle, f);
    if middle != [] {
      assert s2 == Reduce(s1, NotificationsLockPopup(true), f);
    }
    assert Replay(s2, [toggle], f) == Reduce(s2, toggle, f);
    ToggleCountAppend([toggle], middle, section);
    ToggleCountAppend([toggle] + middle, [toggle], section);
    assert ToggleCount(middle, section) == 0;
  }

  /** The whole non-admin access check toggles `notificationsCheckAccess`
      exactly twice, so the flag ends as it started whatever the outcome; the
      popup is locked exactly when the answer was of the other type. */
  lemma AccessCheckCycle(st: AppState, webLink: TextValue, outcome: AccessOutcome,
                         otherType: string, parse: Option<AccessData> -> string, f: FetchedReducer)
    ensures var events := ResolveEvents(AccessCheckSent, webLink) + SettleEvents(webLink, outcome, otherType, parse);
      var after := Replay(st, Dispatches(events), f);
      ToggleCount(Dispatches(events), NotificationsCheckAccess) == 2 &&
      (forall s :: Busy(after, s) == Busy(st, s)) &&
      after.lockPopup == (st.lockPopup || (outcome.Answered? && IsOtherSystem(outcome.response, otherType))) &&
      after.list == st.list && after.active == st.active
  {
    var toggle := ToggleBusySection(NotificationsCheckAccess);
    var issued := ResolveEvents(AccessCheckSent, webLink);
    var settled := SettleEvents(webLink, outcome, otherType, parse);
    DispatchesAppend(issued, settled);
    assert issued[1..] == [Sent(CheckAccess(webLink))] && issued[1..][1..] == [];
    assert Dispatches(issued) == [toggle];
    SettleDispatches(webLink, outcome, otherType, parse);
    var middle: seq<Action> :=
      if outcome.Answered? && IsOtherSystem(outcome.response, otherType) then [NotificationsLockPopup(true)] else [];
    assert Dispatches(issued + settled) == [toggle] + middle + [toggle];
    ToggleAround(st, NotificationsCheckAccess, middle, f);
  }

  // ---------------------------------------------------------------------------
  // What the list view shows
  // ---------------------------------------------------------------------------

  /** JavaScript truthiness of a cursor (`!!cursor`). */
  predicate Truthy(c: Cursor)
    ensures Truthy(c) ==> c.Num? || c.Token?
  {
    match c
    case Null => false
    case Undefined => false
    case Num(n) => n != 0
    case Token(t) => t != ""
  }

  /** What clicking a row does: resolve the notification's link, or call the
      container's `toggleFunc`. */
  datatype Click = ResolveLink(notification: Notification) | ToggleFunc

  /** One rendered notification: its key, its `href` (`None` for `null`), its
      click handler and the texts it shows. */
  datatype Row = Row(key: int, href: Option<string>, onClick: Click, image: string, message: string, createdAt: string)

  /** The rendered view: the empty-state message, the rows, the two footer
      buttons and the access-check overlay. */
  datatype View = View(emptyMessage: bool, rows: seq<Row>, loadMore: bool, showAll: bool, overlay: bool)

  /** The row of one notification: on the primary system the link is resolved
      into `href` while rendering and a click toggles the container; elsewhere
      there is no `href` and a click resolves the link. */
  function RowOf(n: Notification, system: string, primary: string): (r: Row)
    ensures r.key == n.id && r.message == n.message && r.image == n.image
    ensures r.href.Some? <==> system == primary
    ensures r.href.Some? ==> |r.href.value| >= 1 && r.href.value[0] == '/'
    ensures r.onClick == ToggleFunc <==> system == primary
  {
    Row(n.id,
        if system == primary then Some(PrimaryLink(n.webLink)) else None,
        if system != primary then ResolveLink(n) else ToggleFunc,
        n.image, n.message, n.createdAt)
  }

  /** `render()` of the list view.  `busyCheckAccess` is the store's
      `notificationsCheckAccess` flag. */
  function Render(busy: bool, notifications: seq<Notification>, loadMoreButton: bool, cursor: Cursor,
                  busyCheckAccess: bool, system: string, primary: string): (r: View)
    ensures |r.rows| == |notifications|
    ensures r.emptyMessage ==> r.rows == []
    ensures !(r.loadMore && r.showAll)
    ensures r.overlay == busyCheckAccess
  {
    View(!busy && |notifications| == 0,
         seq(|notifications|, i requires 0 <= i < |notifications| => RowOf(notifications[i], system, primary)),
         Truthy(cursor) && loadMoreButton,
         !loadMoreButton,
         busyCheckAccess)
  }

  /** The empty-state message shows exactly when nothing is loading and the
      list has no entries, and then no row is shown beside it. */
  lemma EmptyMessage(busy: bool, ns: seq<Notification>, loadMoreButton: bool, cursor: Cursor,
                     busyCheckAccess: bool, system: string, primary: string)
    ensures var v := Render(busy, ns, loadMoreButton, cursor, busyCheckAccess, system, primary);
      (v.emptyMessage <==> !busy && |ns| == 0) &&
      (v.emptyMessage ==> v.rows == []) &&
      (|v.rows| == 0 <==> |ns| == 0)
  {
  }

  /** One row per notification, in order and keyed by id; on the primary
      system each `href` is the resolved in-app path, otherwise a click
      resolves the link. */
  lemma RowsOfRender(busy: bool, ns: seq<Notification>, loadMoreButton: bool, cursor: Cursor,
                     busyCheckAccess: bool, system: string, primary: string)
    ensures var v := Render(busy, ns, loadMoreButton, cursor, busyCheckAccess, system, primary);
      |v.rows| == |ns| &&
      forall i :: 0 <= i < |ns| ==>
        v.rows[i].key == ns[i].id &&
        (system == primary ==> v.rows[i].href == Some(Resolve(system, primary, ns[i].webLink).path) &&
                               v.rows[i].href.value[0] == '/' && v.rows[i].onClick == ToggleFunc) &&
        (system != primary ==> v.rows[i].href == None && v.rows[i].onClick == ResolveLink(ns[i]))
  {
  }

  /** The footer: "load more" needs a truthy cursor and `loadMoreButton`,
      "show all" shows exactly when `loadMoreButton` is falsy, never both, and
      the footer is empty exactly when `loadMoreButton` is set but no cursor
      remains. */
  lemma Footer(busy: bool, ns: seq<Notification>, loadMoreButton: bool, cursor: Cursor,
               busyCheckAccess: bool, system: string, primary: string)
    ensures var v := Render(busy, ns, loadMoreButton, cursor, busyCheckAccess, system, primary);
      (v.loadMore <==> Truthy(cursor) && loadMoreButton) &&
      (v.showAll <==> !loadMoreButton) &&
      !(v.loadMore && v.showAll) &&
      (!v.loadMore && !v.showAll <==> loadMoreButton && !Truthy(cursor))
  {
  }

  /** The overlay covers the list exactly while the access check is in flight:
      it appears with the check's first toggle and is gone once it settles. */
  lemma OverlayDuringAccessCheck(st: AppState, webLink: TextValue, outcome: AccessOutcome,
                                 otherType: string, parse: Option<AccessData> -> string, f: FetchedReducer,
                                 busy: bool, ns: seq<Notification>, loadMoreButton: bool, cursor: Cursor,
                                 system: string, primary: string)
    requires !Busy(st, NotificationsCheckAccess)
    ensures var issued := ResolveEvents(AccessCheckSent, webLink);
      var during := Replay(st, Dispatches(issued), f);
      var after := Replay(st, Dispatches(issued + SettleEvents(webLink, outcome, otherType, parse)), f);
      Render(busy, ns, loadMoreButton, cursor, Busy(during, NotificationsCheckAccess), system, primary).overlay &&
      !Render(busy, ns, loadMoreButton, cursor, Busy(after, NotificationsCheckAccess), system, primary).overlay
  {
    var toggle := ToggleBusySection(NotificationsCheckAccess);
    var issued := ResolveEvents(AccessCheckSent, webLink);
    assert issued[1..] == [Sent(CheckAccess(webLink))] && issued[1..][1..] == [];
    assert Dispatches(issued) == [toggle];
    assert Replay(st, [toggle], f) == Reduce(st, toggle, f);
    AccessCheckCycle(st, webLink, outcome, otherType, parse, f);
  }
}
