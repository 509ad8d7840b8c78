/**
 * The JavaScript string operations that the notification code relies on:
 * `toLowerCase`, `indexOf`/`includes`, `split` and `replace` with a string
 * pattern, `Array.prototype.join`, and the template rendering of numbers and
 * of `undefined`.  Strings are sequences of UTF-16 code units, modelled as
 * `seq<char>`.
 */
module JsString {
  import opened Wrappers

  /** Lower-case mapping of one character (ASCII letters only). */
  function LowerChar(c: char): char {
    if 'A' <= c <= 'Z' then (c as int + 32) as char else c
  }

  /** `s.toLowerCase()` */
  function LowerCase(s: string): (r: string)
    ensures |r| == |s|
    ensures forall i :: 0 <= i < |s| ==> r[i] == LowerChar(s[i])
  {
    if s == [] then [] else [LowerChar(s[0])] + LowerCase(s[1..])
  }

  /** `pat` occurs in `s` starting at position `i`. */
  predicate OccursAt(s: string, pat: string, i: nat) {
    i + |pat| <= |s| && s[i..i + |pat|] == pat
  }

  predicate StartsWith(s: string, prefix: string) {
    OccursAt(s, prefix, 0)
  }

  /** The first occurrence of `pat` in `s` at or after position `k`. */
  function IndexFrom(s: string, pat: string, k: nat): (r: Option<nat>)
    ensures r.Some? ==> k <= r.value && OccursAt(s, pat, r.value)
    ensures r.Some? ==> forall j :: k <= j < r.value ==> !OccursAt(s, pat, j)
    ensures r.None? ==> forall j :: k <= j ==> !OccursAt(s, pat, j)
    decreases |s| - k
  {
    if k + |pat| > |s| then None
    else if OccursAt(s, pat, k) then Some(k)
    else IndexFrom(s, pat, k + 1)
  }

  /** `s.indexOf(pat)`, with -1 as `None`. */
  function IndexOf(s: string, pat: string): Option<nat> {
    IndexFrom(s, pat, 0)
  }

  /** `s.includes(pat)` */
  predicate Contains(s: string, pat: string) {
    IndexOf(s, pat).Some?
  }

  /** `s.split(sep)` for a non-empty separator: the pieces between the
      non-overlapping occurrences of `sep`, scanned from the left. */
  function Split(s: string, sep: string): (r: seq<string>)
    requires |sep| > 0
    ensures |r| >= 1
    decreases |s|
  {
    match IndexOf(s, sep)
    case None => [s]
    case Some(i) => [s[..i]] + Split(s[i + |sep|..], sep)
  }

  /** `parts.join(sep)` */
  function Join(parts: seq<string>, sep: string): string {
    if |parts| == 0 then ""
    else if |parts| == 1 then parts[0]
    else parts[0] + sep + Join(parts[1..], sep)
  }

  /** `s.replace(pat, rep)` with a string pattern: only the first occurrence
      is replaced. */
  function ReplaceFirst(s: string, pat: string, rep: string): string {
    match IndexOf(s, pat)
    case None => s
    case Some(i) => s[..i] + rep + s[i + |pat|..]
  }

  /** Template-literal rendering of a text property that may be `undefined` or `null`. */
  function Show(v: TextValue): string {
    match v
    case Text(s) => s
    case Missing => "undefined"
    case NullValue => "null"
  }

  function DigitChar(d: nat): char
    requires d < 10
  {
    "0123456789"[d]
  }

  function NatToString(n: nat): (r: string)
    ensures |r| >= 1
    ensures forall i :: 0 <= i < |r| ==> '0' <= r[i] <= '9'
  {
    if n < 10 then [DigitChar(n)] else NatToString(n / 10) + [DigitChar(n % 10)]
  }

  /** Template-literal rendering of an integer. */
  function IntToString(i: int): (r: string)
    ensures |r| >= 1
    ensures forall k :: 0 <= k < |r| ==> r[k] == '-' || '0' <= r[k] <= '9'
  {
    if i < 0 then "-" + NatToString(-i) else NatToString(i)
  }

  /** A query string: `key=val` entries joined by `&`, without any encoding. */
  function EntryStrings(entries: seq<(string, string)>): (r: seq<string>)
    ensures |r| == |entries|
  {
    if entries == [] then [] else [entries[0].0 + "=" + entries[0].1] + EntryStrings(entries[1..])
  }

  function QueryString(entries: seq<(string, string)>): string {
    Join(EntryStrings(entries), "&")
  }

  /** Reading a query string back: split on `&`, then each entry at its first `=`. */
  function ParseEntry(s: string): (string, string) {
    match IndexOf(s, "=")
    case None => (s, "")
    case Some(i) => (s[..i], s[i + 1..])
  }

  function ParseEntries(parts: seq<string>): (r: seq<(string, string)>)
    ensures |r| == |parts|
  {
    if parts == [] then [] else [ParseEntry(parts[0])] + ParseEntries(parts[1..])
  }

  function ParseQuery(q: string): seq<(string, string)> {
    ParseEntries(Split(q, "&"))
  }

  // ---------------------------------------------------------------------------
  // Facts about the operations above
  // ---------------------------------------------------------------------------

  /** `IndexOf` finds the first occurrence, and only that. */
  lemma IndexOfIs(s: string, pat: string, i: nat)
    requires OccursAt(s, pat, i)
    requires forall j :: 0 <= j < i ==> !OccursAt(s, pat, j)
    ensures IndexOf(s, pat) == Some(i)
  {
  }

  /** A separator whose first character is not in `p` is found right after `p`. */
  lemma {:induction false} IndexOfAfter(p: string, pat: string, rest: string)
    requires |pat| > 0 && pat[0] !in p
    ensures IndexOf(p + pat + rest, pat) == Some(|p|)
  {
    var s := p + pat + rest;
    assert s[|p|..|p| + |pat|] == pat;
    forall j | 0 <= j < |p| ensures !OccursAt(s, pat, j) {
      assert s[j] == p[j] != pat[0];
    }
    IndexOfIs(s, pat, |p|);
  }

  /** A pattern whose first character does not occur in `s` is not found. */
  lemma IndexOfAbsent(s: string, pat: string)
    requires |pat| > 0 && pat[0] !in s
    ensures IndexOf(s, pat) == None
  {
    forall j: nat | j + |pat| <= |s| ensures !OccursAt(s, pat, j) {
      assert s[j] != pat[0];
    }
  }

  /** `split` followed by `join` with the same separator gives the string back. */
  lemma {:induction false} JoinSplit(s: string, sep: string)
    requires |sep| > 0
    ensures Join(Split(s, sep), sep) == s
    decreases |s|
  {
    match IndexOf(s, sep)
    case None =>
    case Some(i) =>
      var rest := s[i + |sep|..];
      var parts := Split(rest, sep);
      JoinSplit(rest, sep);
      assert Split(s, sep) == [s[..i]] + parts;
      var whole := [s[..i]] + parts;
      assert whole[1..] == parts;
      assert Join(whole, sep) == s[..i] + sep + Join(parts, sep);
      assert s[i..i + |sep|] == sep;
      assert s == s[..i] + s[i..i + |sep|] + rest;
  }

  /** `join` followed by `split` on a one-character separator gives the parts
      back, provided no part contains the separator. */
  lemma {:induction false} SplitJoin(parts: seq<string>, c: char)
    requires |parts| >= 1
    requires forall k :: 0 <= k < |parts| ==> c !in parts[k]
    ensures Split(Join(parts, [c]), [c]) == parts
  {
    if |parts| == 1 {
      IndexOfAbsent(parts[0], [c]);
    } else {
      var tail := Join(parts[1..], [c]);
      IndexOfAfter(parts[0], [c], tail);
      assert (parts[0] + [c] + tail)[|parts[0]| + 1..] == tail;
      assert (parts[0] + [c] + tail)[..|parts[0]|] == parts[0];
      SplitJoin(parts[1..], c);
      assert parts == [parts[0]] + parts[1..];
    }
  }

  /** An entry `k=v` whose key has no `=` reads back as `(k, v)`. */
  lemma ParseEntryOf(k: string, v: string)
    requires '=' !in k
    ensures ParseEntry(k + "=" + v) == (k, v)
  {
    IndexOfAfter(k, "=", v);
    assert (k + "=" + v)[..|k|] == k;
    assert (k + "=" + v)[|k| + 1..] == v;
  }

  /** `includes` holds exactly when some occurrence exists. */
  lemma ContainsIff(s: string, pat: string)
    ensures Contains(s, pat) <==> exists j :: OccursAt(s, pat, j)
  {
    if !Contains(s, pat) {
      assert forall j :: 0 <= j ==> !OccursAt(s, pat, j);
    }
  }

  /** The lower-case form distributes over concatenation. */
  lemma {:induction false} LowerCaseAppend(a: string, b: string)
    ensures LowerCase(a + b) == LowerCase(a) + LowerCase(b)
  {
    var l, r := LowerCase(a + b), LowerCase(a) + LowerCase(b);
    assert |l| == |r|;
    forall i | 0 <= i < |l| ensures l[i] == r[i] {
      if i < |a| { assert (a + b)[i] == a[i]; } else { assert (a + b)[i] == b[i - |a|]; }
    }
  }

  /** A query string reads back as its entries, provided no key holds `&` or
      `=` and no value holds `&`. */
  lemma {:induction false} QueryRoundTrip(entries: seq<(string, string)>)
    requires |entries| >= 1
    requires forall i :: 0 <= i < |entries| ==>
      '&' !in entries[i].0 && '=' !in entries[i].0 && '&' !in entries[i].1
    ensures ParseQuery(QueryString(entries)) == entries
  {
    var parts := EntryStrings(entries);
    EntryStringsShape(entries);
    SplitJoin(parts, '&');
    ParseEntriesOf(entries);
  }

  lemma {:induction false} EntryStringsShape(entries: seq<(string, string)>)
    requires forall i :: 0 <= i < |entries| ==> '&' !in entries[i].0 && '&' !in entries[i].1
    ensures forall i :: 0 <= i < |entries| ==>
      EntryStrings(entries)[i] == entries[i].0 + "=" + entries[i].1 && '&' !in EntryStrings(entries)[i]
  {
    if entries != [] {
      EntryStringsShape(entries[1..]);
      var parts := EntryStrings(entries);
      forall i | 0 <= i < |entries|
        ensures parts[i] == entries[i].0 + "=" + entries[i].1 && '&' !in parts[i]
      {
        if i > 0 { assert parts[i] == EntryStrings(entries[1..])[i - 1]; }
      }
    }
  }

  lemma {:induction false} ParseEntriesOf(entries: seq<(string, string)>)
    requires forall i :: 0 <= i < |entries| ==> '=' !in entries[i].0
    ensures ParseEntries(EntryStrings(entries)) == entries
  {
    if entries != [] {
      ParseEntryOf(entries[0].0, entries[0].1);
      ParseEntriesOf(entries[1..]);
      assert EntryStrings(entries)[1..] == EntryStrings(entries[1..]);
    }
  }

  /** Cutting a URL at its only `?`. */
  lemma SplitOnce(base: string, c: char, rest: string)
    requires c !in base && c !in rest
    ensures Split(base + [c] + rest, [c]) == [base, rest]
  {
    assert Join([base, rest], [c]) == base + [c] + rest;
    SplitJoin([base, rest], c);
  }

  /** An occurrence in a suffix is an occurrence in the whole string. */
  lemma OccursInSuffix(a: string, b: string, pat: string, j: nat)
    requires OccursAt(b, pat, j)
    ensures OccursAt(a + b, pat, |a| + j)
  {
    assert (a + b)[|a| + j..|a| + j + |pat|] == b[j..j + |pat|];
  }

  /** A leading character other than the pattern's first one changes nothing
      about whether the pattern occurs. */
  lemma ContainsAfterChar(c: char, s: string, pat: string)
    requires |pat| > 0 && c != pat[0]
    ensures Contains([c] + s, pat) <==> Contains(s, pat)
  {
    ContainsIff([c] + s, pat);
    ContainsIff(s, pat);
    if Contains([c] + s, pat) {
      var j: nat :| OccursAt([c] + s, pat, j);
      assert ([c] + s)[j] == ([c] + s)[j..j + |pat|][0] == pat[0];
      assert j >= 1;
      assert s[j - 1..j - 1 + |pat|] == ([c] + s)[j..j + |pat|];
      assert OccursAt(s, pat, j - 1);
    }
    if Contains(s, pat) {
      var j: nat :| OccursAt(s, pat, j);
      OccursInSuffix([c], s, pat, j);
    }
  }

  /** A string with no two slashes in a row holds no `//`. */
  lemma NoDoubleSlash(s: string)
    requires forall k :: 0 < k < |s| ==> s[k - 1] != '/' || s[k] != '/'
    ensures IndexOf(s, "//") == None
  {
    forall j: nat | j + 2 <= |s| ensures !OccursAt(s, "//", j) {
      assert s[j + 1 - 1] != '/' || s[j + 1] != '/';
      assert s[j..j + 2][0] == s[j] && s[j..j + 2][1] == s[j + 1];
    }
  }

  // ---------------------------------------------------------------------------
  // Plain objects with string values, as their entries in insertion order
  // ---------------------------------------------------------------------------

  /** `Object.keys(o)` */
  function Keys(entries: seq<(string, string)>): (r: seq<string>)
    ensures |r| == |entries|
  {
    if entries == [] then [] else [entries[0].0] + Keys(entries[1..])
  }

  /** The entries of an object have distinct keys. */
  predicate DistinctKeys(entries: seq<(string, string)>) {
    entries == [] || (entries[0].0 !in Keys(entries[1..]) && DistinctKeys(entries[1..]))
  }

  /** `o[key]`, with `None` for a missing key. */
  function Lookup(entries: seq<(string, string)>, key: string): (r: Option<string>)
    ensures r.Some? <==> key in Keys(entries)
  {
    if entries == [] then None
    else if entries[0].0 == key then Some(entries[0].1)
    else Lookup(entries[1..], key)
  }

  /** `{ ...o, [key]: val }`: an existing key keeps its place and takes the new
      value; a new key is added at the end. */
  function Assign(entries: seq<(string, string)>, key: string, val: string): (r: seq<(string, string)>)
    ensures Lookup(r, key) == Some(val)
    ensures forall k :: k != key ==> Lookup(r, k) == Lookup(entries, k)
    ensures Keys(r) == if key in Keys(entries) then Keys(entries) else Keys(entries) + [key]
    ensures DistinctKeys(entries) ==> DistinctKeys(r)
    ensures forall e :: e in r ==> e in entries || e == (key, val)
  {
    if entries == [] then [(key, val)]
    else if entries[0].0 == key then
      var r := [(key, val)] + entries[1..];
      assert r[1..] == entries[1..];
      r
    else
      var rest := Assign(entries[1..], key, val);
      var r := [entries[0]] + rest;
      assert r[1..] == rest;
      r
  }

  /** A character that is neither separator and occurs in no key or value
      does not occur in the query string. */
  lemma {:induction false} QueryStringAvoids(entries: seq<(string, string)>, c: char)
    requires c != '&' && c != '='
    requires forall i :: 0 <= i < |entries| ==> c !in entries[i].0 && c !in entries[i].1
    ensures c !in QueryString(entries)
  {
    EntryStringsAvoid(entries, c);
    JoinAvoids(EntryStrings(entries), "&", c);
  }

  lemma {:induction false} EntryStringsAvoid(entries: seq<(string, string)>, c: char)
    requires c != '='
    requires forall i :: 0 <= i < |entries| ==> c !in entries[i].0 && c !in entries[i].1
    ensures forall i :: 0 <= i < |entries| ==> c !in EntryStrings(entries)[i]
  {
    if entries != [] {
      EntryStringsAvoid(entries[1..], c);
      var parts := EntryStrings(entries);
      forall i | 0 <= i < |entries| ensures c !in parts[i] {
        if i > 0 { assert parts[i] == EntryStrings(entries[1..])[i - 1]; }
      }
    }
  }

  lemma {:induction false} JoinAvoids(parts: seq<string>, sep: string, c: char)
    requires c !in sep && forall i :: 0 <= i < |parts| ==> c !in parts[i]
    ensures c !in Join(parts, sep)
    decreases |parts|
  {
    if |parts| > 1 {
      JoinAvoids(parts[1..], sep, c);
    }
  }
}
