/** `parseCookies`, the hand-written `Cookie` header parser that me.ts,
    signout.ts and signout-fixed.ts each carry a verbatim copy of, and the
    session-token extraction the three handlers share. */
module Cookies {
  import opened Wrappers
  import opened Text

  /** The cookie that carries the session token. */
  const SessionCookieName := "sessionToken"

  /** Assigning a string to `cookies["__proto__"]` on a plain `{}` goes to the
      prototype setter, which ignores non-object values: such a segment adds
      no entry. */
  const ProtoKey := "__proto__"

  /** What one trimmed segment contributes: the text is split on `=`, the
      first piece is the name and the other pieces, re-joined with `=`, are
      the value; an empty name or a text without `=` gives nothing. */
  function EntryOf(t: string): (e: Option<(string, string)>)
    ensures e.Some? ==> e.value.0 != "" && '=' !in e.value.0 && e.value.0 != ProtoKey
  {
    var pieces := Split(t, '=');
    var name := pieces[0];
    var rest := pieces[1..];
    if name != "" && |rest| > 0 && name != ProtoKey then Some((name, Join(rest, '=')))
    else None
  }

  /** What one `;`-separated segment contributes, once trimmed. */
  function Entry(segment: string): (e: Option<(string, string)>)
    ensures e.Some? ==> e.value.0 != "" && '=' !in e.value.0 && e.value.0 != ProtoKey
  {
    EntryOf(Trim(segment))
  }

  /** The entries of the segments, one per segment, in order. */
  function Entries(segments: seq<string>): (entries: seq<Option<(string, string)>>)
    ensures |entries| == |segments|
    ensures forall i :: 0 <= i < |segments| ==> entries[i] == Entry(segments[i])
  {
    seq(|segments|, i requires 0 <= i < |segments| => Entry(segments[i]))
  }

  /** Entry `i` assigns the name `k`. */
  predicate Names(entries: seq<Option<(string, string)>>, i: int, k: string)
    requires 0 <= i < |entries|
  {
    entries[i].Some? && entries[i].value.0 == k
  }

  /** One turn of the `forEach` body: the entry, if any, overwrites the name. */
  function Assign(cookies: map<string, string>, entry: Option<(string, string)>): map<string, string> {
    match entry
    case None => cookies
    case Some((name, value)) => cookies[name := value]
  }

  /** The dictionary after the `forEach` has run over the entries, left to right. */
  function Fold(entries: seq<Option<(string, string)>>): map<string, string> {
    if entries == [] then map[]
    else Assign(Fold(entries[..|entries| - 1]), entries[|entries| - 1])
  }

  /** `parseCookies(cookieHeader)`: an absent or empty header gives the empty
      dictionary, otherwise the fold over the header split on `;`. */
  function CookieMap(header: Option<string>): map<string, string> {
    if header.None? || header.value == "" then map[]
    else Fold(Entries(Split(header.value, ';')))
  }

  /** The loop of `parseCookies`, filling a dictionary one segment at a time. */
  method ParseCookies(header: Option<string>) returns (cookies: map<string, string>)
    ensures cookies == CookieMap(header)
    ensures header.None? || header.value == "" ==> cookies == map[]
  {
    cookies := map[];
    if header.None? || header.value == "" {
      return;
    }
    var segments := Split(header.value, ';');
    var i := 0;
    while i < |segments|
      invariant 0 <= i <= |segments|
      invariant cookies == Fold(Entries(segments[..i]))
    {
      assert Entries(segments[..i + 1])[..i] == Entries(segments[..i]);
      var entry := Entry(segments[i]);
      if entry.Some? {
        var name := entry.value.0;
        cookies := cookies[name := entry.value.1];
      }
      i := i + 1;
    }
    assert segments[..i] == segments;
  }

  /** An independent reading of a trimmed segment: the name is what precedes
      the FIRST `=` and the value is everything after it, so `a=b=c` gives
      `a` and `b=c`; without `=`, or with `=` first, or with the name
      `__proto__`, there is no entry. */
  lemma EntryFirstEquals(t: string)
    ensures match IndexOf(t, '=')
      case None => EntryOf(t) == None
      case Some(k) =>
        EntryOf(t) == if k == 0 || t[..k] == ProtoKey then None else Some((t[..k], t[k + 1..]))
  {
    match IndexOf(t, '=')
    case None =>
      SplitWithout(t, '=');
    case Some(k) =>
      assert t == t[..k] + ['='] + t[k + 1..];
      SplitAtFirst(t[..k], '=', t[k + 1..]);
      JoinSplit(t[k + 1..], '=');
  }

  /** A name is present exactly when some entry assigns it. */
  lemma {:induction false} FoldKeys(entries: seq<Option<(string, string)>>, k: string)
    ensures k in Fold(entries) <==> exists i :: 0 <= i < |entries| && Names(entries, i, k)
  {
    if entries != [] {
      var n := |entries| - 1;
      var init := entries[..n];
      FoldKeys(init, k);
      assert Fold(entries) == Assign(Fold(init), entries[n]);
      if k in Fold(entries) {
        if k in Fold(init) {
          var i :| 0 <= i < |init| && Names(init, i, k);
          assert Names(entries, i, k);
        } else {
          assert Names(entries, n, k);
        }
      }
      if exists i :: 0 <= i < |entries| && Names(entries, i, k) {
        var i :| 0 <= i < |entries| && Names(entries, i, k);
        if i < n {
          assert Names(init, i, k);
        }
      }
    }
  }

  /** Last assignment wins: the value of a name is the one given by the last
      entry that assigns it. */
  lemma {:induction false} FoldLastWins(entries: seq<Option<(string, string)>>, i: nat, k: string, v: string)
    requires i < |entries| && entries[i] == Some((k, v))
    requires forall j :: i < j < |entries| ==> !Names(entries, j, k)
    ensures k in Fold(entries) && Fold(entries)[k] == v
  {
    var n := |entries| - 1;
    if i < n {
      var init := entries[..n];
      assert init[i] == Some((k, v));
      forall j | i < j < |init| ensures !Names(init, j, k) {
        assert !Names(entries, j, k);
      }
      FoldLastWins(init, i, k, v);
      assert !Names(entries, n, k);
    }
  }

  /** The names of a parsed header are non-empty, free of `=` and never
      `__proto__`, and each is assigned by some `;`-separated segment. */
  lemma CookieMapNames(header: Option<string>, k: string)
    requires k in CookieMap(header)
    ensures k != "" && '=' !in k && k != ProtoKey
    ensures exists i :: 0 <= i < |Split(header.value, ';')| && Names(Entries(Split(header.value, ';')), i, k)
  {
    var entries := Entries(Split(header.value, ';'));
    FoldKeys(entries, k);
    var i :| 0 <= i < |entries| && Names(entries, i, k);
  }

  /** Duplicate names in a header: the last segment that assigns a name
      decides its value. */
  lemma CookieMapLastWins(h: string, i: nat, k: string, v: string)
    requires h != "" && i < |Split(h, ';')|
    requires Entry(Split(h, ';')[i]) == Some((k, v))
    requires forall j :: i < j < |Split(h, ';')| ==> !Names(Entries(Split(h, ';')), j, k)
    ensures k in CookieMap(Some(h)) && CookieMap(Some(h))[k] == v
  {
    FoldLastWins(Entries(Split(h, ';')), i, k, v);
  }

  /** A segment that neither starts nor ends with whitespace is read as it is. */
  lemma EntryOfTrimmed(segment: string)
    requires segment == [] || (!IsJsWhitespace(segment[0]) && !IsJsWhitespace(segment[|segment| - 1]))
    ensures Entry(segment) == EntryOf(segment)
  {
    TrimOfTrimmed(segment);
  }

  /** A segment `name=value` whose ends are not whitespace is read as that
      entry, whatever `=` the value holds. */
  lemma PairEntry(name: string, value: string)
    requires name != "" && name != ProtoKey && '=' !in name && !IsJsWhitespace(name[0])
    requires value == [] || !IsJsWhitespace(value[|value| - 1])
    ensures Entry(name + "=" + value) == Some((name, value))
  {
    var h := name + "=" + value;
    EntryOfTrimmed(h);
    IndexOfAfter(name, '=', value);
    assert h[..|name|] == name && h[|name| + 1..] == value;
    EntryFirstEquals(h);
  }

  /** A header that holds a single cookie `name=value` parses to exactly that
      entry, whatever the value holds besides `;`: a browser echoing back the
      cookie the sign-in and sign-up handlers set is read back unchanged. */
  lemma SingleCookie(name: string, value: string)
    requires name != "" && name != ProtoKey && '=' !in name && ';' !in name
    requires !IsJsWhitespace(name[0])
    requires ';' !in value && (value == [] || !IsJsWhitespace(value[|value| - 1]))
    ensures CookieMap(Some(name + "=" + value)) == map[name := value]
  {
    var h := name + "=" + value;
    assert ';' !in h;
    SplitWithout(h, ';');
    PairEntry(name, value);
    var entries := Entries([h]);
    assert entries == [Some((name, value))];
    assert entries[..0] == [];
    assert Fold(entries) == Assign(Fold([]), Some((name, value)));
  }

  /** The token the handlers work with: `req.cookies?.sessionToken` when it
      is a non-empty string, otherwise the `sessionToken` entry of the parsed
      `Cookie` header when that is non-empty, otherwise none (both `undefined`
      and `""` are falsy). */
  function SessionToken(fromCookies: Option<string>, header: Option<string>): (t: Option<string>)
    ensures t.Some? ==> t.value != ""
    ensures fromCookies.Some? && fromCookies.value != "" ==> t == fromCookies
  {
    if fromCookies.Some? && fromCookies.value != "" then fromCookies
    else
      var jar := CookieMap(header);
      if SessionCookieName in jar && jar[SessionCookieName] != "" then Some(jar[SessionCookieName])
      else None
  }

  /** The handlers' extraction: a local is read from `req.cookies`, then
      reassigned from the parsed header when it is falsy. */
  method ExtractToken(fromCookies: Option<string>, header: Option<string>) returns (token: Option<string>)
    ensures token == SessionToken(fromCookies, header)
  {
    token := fromCookies;
    if token.None? || token.value == "" {
      var cookies := ParseCookies(header);
      token := if SessionCookieName in cookies && cookies[SessionCookieName] != ""
               then Some(cookies[SessionCookieName]) else None;
    }
  }
}
